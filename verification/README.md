# A model of the encryption gateway

The gateway takes sealed requests from clients, checks them, forwards them to allowed upstreams and
returns the answers. This project models its stateful parts as they change state, its parsers and
canonicalisers as functions, and its attestation protocol as a state machine over interleaved requests,
and proves what they keep. `dafny verify dfyconfig.toml` checks everything.

## What is modelled

- **Rate limiter** (`RateLimit`, `RateLimitGuard`, `RateLimitExample`). Fixed windows in a table swept at
  most once per `ttlMs`, with one overflow bucket once the table is full. In every run, a bucket admits at
  most 2·limit − 1 requests and a client at most 3·limit − 1 in any half-open interval of length `ttlMs`, and for every
  limit one run meets both bounds. With at most maxEntries − 1 distinct clients every answer, headers included, is that of an
  unbounded table that never sweeps.
- **Key/value store** (`KvStore`, over the insertion-ordered maps of `JsMaps`, section 24.1 of ECMA-262).
  Every answer is the last unexpired, undeleted write, unless at some moment since then maxEntries other keys, written
  later, were all unexpired; a write to a full table drops every expired entry and only without any the oldest one; the
  size never exceeds maxEntries; the order is last-write order.
- **Attestation protocol** (`Protocol`, `Completeness`, `Server`, `Eviction`). Enrolments, verifications and guarded requests advance one
  `await` at a time against the shared store, interleaved in any way with the issuing of challenges and the deletion of devices. A challenge
  id hands its nonce to at most one request; every positive outcome traces back to a challenge issued for
  the same purpose at most 60000 ms before, and every negative one to what was missing; a challenge asked for in
  time yields its nonce, and with it enrolments, verifications and guarded requests run to the answer they should get;
  an enrolled device keeps its key until it is deleted or maxEntries other keys are unexpired at once, and a run for
  every capacity shows that then it may lose it. A lookup never finds a device that was deleted or replaced before, and none that an accepted
  certificate chain did not attest, so that only attested devices get past the guard.
- **Replay cache** (`Replay`, `ReplayExample`). `set` leaves an accepted nonce in its old place, so the
  bound on what may push it out has two cases. A nonce is refused for `maxSkewMs` while fewer than maxEntries
  other nonces are accepted, if it was newly inserted, and otherwise while no more than ⌊maxEntries/2⌋ + 1 are;
  runs show that one more is too many, in the first case at every capacity and in the second from 5 on. One nonce
  with one timestamp is accepted at most three times, and three are reached; in between it is accepted again exactly
  when maxSkewMs have passed and its timestamp is still in time.
- **Attestation policy** (`Attestation`, `Serials`). Acceptance is equivalent to a signature path to a
  trusted self-signed root with every certificate in date and unrevoked and a leaf that vouches for the
  challenge and the app; a rejection carries the code of the first check that fails; a stricter policy accepts no more.
- **Client keys** (`ClientIp`). Every spelling of an IPv6 address expands to its eight groups; two
  spellings outside `::ffff:0:0/96` share a key exactly when their upper halves agree (sections 2.2 and 2.5.5.2 of RFC 4291).
- **Target policy** (`TargetPolicy`) and **headers** (`Headers`). A request is allowed exactly when an entry names its
  host or a route its host, method and path, with paths compared as lists of segments; decisions independent of the order of entries, the routes that are read exactly those of the documented
  form, the ports a host entry stands for, and `normalizeHeaders` equal to a declarative
  filter (section 6.1 of RFC 7230).
- **Envelope** (`Envelope`, `WebClient`, `Attacker`, `Proxy`, `Gateways`, `Json`). Symbolic RSA-OAEP and AES-GCM. What is
  sent upstream, and what a request is refused for, is given field by field. For
  every request, key list holding the client's key, upstream and response mode, the web client sees exactly what
  handing the request to `forward` without any envelope would have shown, provided that base64 gives back byte
  strings and JSON the two values exchanged. An attacker who owns any other keys, sees everything on the wire and sends the
  captured request again as often as it likes makes a client that requires encryption accept nothing but results that the
  gateway sealed under the key of this request; that may be the answer to a copy.

Classes stand for the classes of the repository: their methods change fields in place and are proved equal
to a specification function, about which the run-wide lemmas are proved. `Text`, `Recency` and `Prelude` hold shared
vocabulary. The clock, the random ids, nonces and IVs, the network, URL parsing, `Date.parse`, `net.isIP`, JSON and base64
are parameters.

## Where the code says something else than its text

- `src/common/client-ip.ts:15` says that IPv4-mapped addresses share the bucket of the IPv4 address. The code
  compares the leading groups as texts, so this holds exactly when the five leading groups are elided or written
  `0`; with one of them padded, as in `0000:0:0:0:0:ffff:203.0.113.7`, the key is that of `::/64` (`ClientIp.MappedKeyIff`, `ClientIp.PaddedZeroLosesKey`).
- `docs/attestation.md:93` and `src/attestation/attestation.controller.ts:93-95` say that an enrolled id is never
  bound to another key without a deletion. Enrolments share a bounded store with challenges: after maxEntries
  challenges an enrolment is evicted, and its id can be enrolled with another key (`Eviction.IdIsRebound`). An
  enrolment succeeds exactly when its id is not in the store (`Protocol.EnrolsIff`), which needs a deletion or
  maxEntries other keys unexpired at once (`Protocol.OneKeyPerDevice`).
- `src/common/replay-protection.service.ts:13-14` says that a nonce can be used once inside the allowed clock window. It is
  remembered for maxSkewMs from its use, and the window around a timestamp is twice as long: a request just accepted can be
  accepted a second time exactly when its timestamp is not before that acceptance (`Replay.TwiceIff`), and is, sent again at
  any later time with little else in between, exactly from maxSkewMs after it until maxSkewMs after its timestamp
  (`Replay.ResentAcceptedIff`). One request may be accepted three times (`ReplayExample.ThreeAreAccepted`).
- `src/common/replay-protection.service.ts:84` says that sweeping runs at most once per window. A sweep drops an
  expired nonce exactly when the cache is at least half full (`Replay.SweepIff`), and two may do so one millisecond
  apart (`ReplayExample.TwoSweepsInOneWindow`).
- `src/attestation/kv.store.ts:61-63` answers that a key was there when its entry has expired but was not
  dropped, although a lookup would find nothing: exactly then the two disagree (`KvStore.DeleteFlagIff`,
  `KvStore.StaleIsDeleted`).
- `clients/web/gatewayClient.js:66-72` sends neither `Nonce` nor `Timestamp`, so a gateway with
  `REQUIRE_REQUEST_NONCE=true` refuses every request of that client (`Gateways.RoundTrip`).

## Model

| member | source | states |
|---|---|---|
| RateLimit.StepKeeps | src/common/rate-limit.guard.ts:45-96 | every request keeps the invariant: windows of one bucket are disjoint or the same, a client changes buckets only at sweeps and full tables, and sweeps are at least ttlMs apart |
| RateLimit.RunKeeps | src/common/rate-limit.guard.ts:45-96 | the invariant holds in every run |
| RateLimit.RunBounded | src/common/rate-limit.guard.ts:59-68 | in every run the table holds at most maxEntries windows, at most maxEntries − 1 of them not the overflow bucket |
| RateLimit.BucketAdmissions | src/common/rate-limit.guard.ts:58-87 | in every run and every half-open interval of length ttlMs, one bucket admits at most 2·limit − 1 requests |
| RateLimit.ClientAdmissions | src/common/rate-limit.guard.ts:45-96 | in every run and every half-open interval of length ttlMs, one client is admitted at most 3·limit − 1 times however it mixes its own and the overflow bucket |
| RateLimit.RetryAfterExact | src/common/rate-limit.guard.ts:63-85 | after a throttled reply the next request in that bucket is admitted iff the window has ended, then as the first of a new window; waiting Retry-After seconds suffices and one second less ends before the window does |
| RateLimit.ThrottledAfterLimit | src/common/rate-limit.guard.ts:63-85 | a request is throttled only after at least limit others in the same window of its bucket, all within ttlMs before the end of that window |
| RateLimit.FiguresExact | src/common/rate-limit.guard.ts:70-86 | in every run a request is admitted iff fewer than limit others came before it in the window of its bucket; limit, remaining, the seconds to the end of the window, rounded up, and Retry-After are those of that count |
| RateLimit.OverflowExact | src/common/rate-limit.guard.ts:55-68 | a request is counted in the overflow bucket iff its client has no standing window and maxEntries − 1 others do, where a due sweep leaves only windows that have not ended |
| RateLimit.RefinesReference | src/common/rate-limit.guard.ts:55-96 | with at most maxEntries − 1 distinct clients every reply is that of an unbounded per-client table that never sweeps |
| RateLimitExample.BoundsAreMet | src/common/rate-limit.guard.ts:45-96 | for every limit one run admits 2·limit − 1 requests through a bucket and 3·limit − 1 for a client within one interval, so neither bound can be lowered |
| RateLimitGuards.RateLimitGuard.constructor | src/common/rate-limit.guard.ts:33-43 | starts with an empty table whose first sweep is due at once |
| RateLimitGuards.RateLimitGuard.CanActivate | src/common/rate-limit.guard.ts:45-87 | the table and the reply headers are those of one specified step for the client's key; a skipped route changes nothing |
| RateLimitGuards.RateLimitGuard.Count | src/common/rate-limit.guard.ts:58-86 | counts the request in its bucket, in a new window when the old one has ended, and answers it |
| RateLimitGuards.RateLimitGuard.Sweep | src/common/rate-limit.guard.ts:89-96 | when due, exactly the windows that have not ended remain and the next sweep is ttlMs away; otherwise nothing changes |
| KvStore.ApplyKeeps | src/attestation/kv.store.ts:34-93 | every operation keeps the store bounded, in last-write order and true to the last writes, and answers rightly: the last unexpired, undeleted write of the key, or null only if there is none or at some moment since it maxEntries other keys, written later, were all unexpired |
| KvStore.RunFaithful | src/attestation/kv.store.ts:26-94 | in every run the size is at most maxEntries, the keys stand in last-write order, and every entry is the last write of its key |
| KvStore.RunRight | src/attestation/kv.store.ts:26-94 | every answer in a run is right in that sense |
| KvStore.WriteIs | src/attestation/kv.store.ts:75-93 | a write puts its key last and drops nothing else until the others fill the table, then every expired one, and only when none has expired the oldest |
| KvStore.FewKeysExact | src/attestation/kv.store.ts:26-94 | in a run that writes at most maxEntries distinct keys an answer is that of an unbounded map that keeps expired entries iff it is not the deletion of an expired entry still in the table |
| KvStore.DeleteFlagIff | src/attestation/kv.store.ts:61-73 | delete answers what a lookup would find iff the key has no expired entry still in the table |
| KvStore.StaleIsDeleted | src/attestation/kv.store.ts:61-73 | a key stored for one millisecond reads as absent at 2 and is yet reported deleted |
| KvStore.MemoryKvStore.constructor | src/attestation/kv.store.ts:27-32 | an empty store of the given capacity, 10000 by default |
| KvStore.MemoryKvStore.Get | src/attestation/kv.store.ts:34-36 | the new entries and the answer are those of the specified lookup |
| KvStore.MemoryKvStore.Set | src/attestation/kv.store.ts:38-41 | the new entries are those of the specified write, without expiry when no ttl is given |
| KvStore.MemoryKvStore.SetIfAbsent | src/attestation/kv.store.ts:48-52 | writes and answers true exactly when the key reads as absent |
| KvStore.MemoryKvStore.GetDelete | src/attestation/kv.store.ts:55-59 | answers the lookup and leaves the key absent, in one step |
| KvStore.MemoryKvStore.Delete | src/attestation/kv.store.ts:61-63 | removes the key and answers whether an entry was there, expired or not |
| KvStore.MemoryKvStore.Find | src/attestation/kv.store.ts:65-73 | answers the unexpired value and drops an expired entry |
| KvStore.MemoryKvStore.Store | src/attestation/kv.store.ts:75-79 | the key ends up last, after eviction if the store was full |
| KvStore.MemoryKvStore.Evict | src/attestation/kv.store.ts:82-93 | only when full, drops every expired entry, and only when there is none the oldest one; the rest keeps its order |
| Protocol.KeysApart | src/attestation/challenge.store.ts:60-62 | challenge keys and device keys never coincide, and a key determines its id |
| Protocol.RunKeeps | src/attestation/attestation.controller.ts:64-142 | over every interleaving the store and every request's program counter stay accounted for by the history |
| Protocol.OutcomesTraced | src/attestation/attestation.controller.ts:64-142 | every answer, good or bad, has its reason in the history: a nonce held or not obtained, a chain accepted or rejected with that code at the recorded instant and not before the nonce was taken, a device enrolled or missing at the very lookup, an id occupied at the very attempt, a signature that fits or does not; no request ends in an exception from a stored value of the other kind |
| Protocol.EnrolledTraced | src/attestation/attestation.controller.ts:64-111 | an enrolled answer stands on a challenge issued for enroll, whose nonce this request took at most 60000 ms later, and on its own enrolment of a device whose chain was accepted for that nonce at the instant kept as enrolledAt, not before the nonce was taken |
| Protocol.EnrolmentAttested | src/attestation/attestation.controller.ts:66-100 | every attempt to enrol a device, in every run, is that of a request that had taken a nonce issued to enrol, at most 60000 ms before, and whose chain was accepted for that nonce, with that key and level, at the instant kept as enrolledAt |
| Protocol.VerifiedTraced | src/attestation/attestation.controller.ts:117-142 | a verified answer stands on a nonce this request took in time, issued to verify, or for a guarded request for the route's own purpose, and signed by the key of the device this request found under its id: enrolled in an earlier step, neither deleted nor replaced up to that lookup, and attested then by a chain accepted in that sense |
| Protocol.GuardAdmits | src/attestation/device-signature.guard.ts:17-99 | under the required policy only attested devices get through: whatever the guard admits is verified in that sense |
| Protocol.LookupIsCurrent | src/attestation/device.registry.ts:23-40 | whatever the bound on writes, a lookup finds the device enrolled at that moment or nothing, never one deleted or replaced before |
| Protocol.EnrolsIff | src/attestation/device.registry.ts:47-53 | an enrolment succeeds iff the id is not in the store at that moment |
| Protocol.SingleUse | src/attestation/challenge.store.ts:43-58 | over every interleaving each challenge id yields its nonce to at most one request |
| Protocol.OneTry | src/attestation/challenge.store.ts:39-58 | the first request to ask for a challenge uses it up, whatever its purpose: no later one gets the nonce |
| Protocol.TakenAfterIssue | src/attestation/challenge.store.ts:21-58 | a nonce handed out was issued earlier in the run under that id, for that purpose, at most 60000 ms before |
| Protocol.ChallengeYields | src/attestation/challenge.store.ts:21-58 | the first request to ask for a challenge, for its purpose and within 60000 ms, gets its nonce, unless maxEntries other keys, written since it was issued, are unexpired at once |
| Protocol.OneKeyPerDevice | src/attestation/device.registry.ts:42-61 | once a device id is enrolled every lookup returns that device and every further enrolment fails, until it is deleted or maxEntries other keys, written since, are unexpired at once |
| Eviction.IdIsRebound | src/attestation/attestation.controller.ts:93-108 | for every capacity, maxEntries challenges with a nonce of their own, issued after an enrolment, evict it, and without any deletion the id is enrolled again with another key, by a chain for the last of these nonces; so the bound above is sharp |
| Eviction.SomeSettingFits | src/attestation/attestation.service.ts:76-226 | a policy and two accepted certificate chains for such a run exist for every capacity and whatever the nonces |
| Protocol.FreeIdEnrols | src/attestation/device.registry.ts:47-53 | an enrolment that reaches the store succeeds whenever the id was never enrolled or was deleted since |
| Completeness.VerifyAnswers | src/attestation/attestation.controller.ts:117-142 | a timely challenge issued to verify, an enrolled device and a signature of the nonce by its key end in verified, any other signature in its rejection, however other requests interleave |
| Completeness.GuardAnswers | src/attestation/device-signature.guard.ts:53-99 | the same for a guarded route, its own purpose and the three headers; a wrong signature passes unverified only under the report policy |
| Completeness.EnrolRejects | src/attestation/attestation.controller.ts:66-91 | with such a challenge and a rejected chain the answer carries the code |
| Completeness.EnrolAnswers | src/attestation/attestation.controller.ts:64-111 | a timely challenge issued to enrol, or without a purpose, and an accepted chain end in an enrolment of the attested key, at that level and instant, if the id is free, and in a conflict if another device is enrolled under it |
| Completeness.RefusedAtOnce | src/attestation/device-signature.guard.ts:70-79 | a server without a policy neither enrols nor verifies, a guarded request with an absent or empty header is unverified, and neither touches the store; any other request takes its challenge out |
| Server.ChallengeStore.Issue | src/attestation/challenge.store.ts:21-37 | stores the challenge under its id for 60000 ms |
| Server.ChallengeStore.Consume | src/attestation/challenge.store.ts:43-58 | takes the challenge out of the store and hands over its nonce only for the purpose it was issued for; an unreadable text gives nothing, a value without a purpose an exception |
| Server.DeviceRegistry.Get | src/attestation/device.registry.ts:23-40 | the device stored under the id, or none, also when what is stored does not decode |
| Server.DeviceRegistry.Enrol | src/attestation/device.registry.ts:47-53 | stores the device without expiry exactly when the id is free |
| Server.DeviceRegistry.Has | src/attestation/device.registry.ts:55-57 | whether the id is stored |
| Server.DeviceRegistry.Delete | src/attestation/device.registry.ts:59-61 | removes the id |
| Server.AttestationServer.Challenge | src/attestation/attestation.controller.ts:50-57 | one step of the protocol: a challenge issued, for enroll when no purpose is given |
| Server.AttestationServer.Arrive | src/attestation/device-signature.guard.ts:53-84 | one step of the protocol: a request runs up to its first answer from the store |
| Server.AttestationServer.Resume | src/attestation/attestation.controller.ts:66-142 | one step of the protocol: a waiting request runs to its next await or its end |
| Server.AttestationServer.AfterConsumeEnroll | src/attestation/attestation.controller.ts:66-100 | an enrolment with no nonce is rejected, one with a rejected chain carries the code, any other tries to enrol |
| Server.AttestationServer.DeleteDevice | src/attestation/device.registry.ts:59-61 | one step of the protocol: an enrolment deleted |
| Replay.ConsultAccepts | src/common/replay-protection.service.ts:62-72 | an acceptance keeps every nonce accounted for, cached until its time is over or under pressure of at least maxEntries keys, and leaves the accepted nonce in the cache |
| Replay.ConsultRefuses | src/common/replay-protection.service.ts:62-65 | so does a refusal |
| Replay.RunRemembers | src/common/replay-protection.service.ts:37-90 | in every run the cache holds at most maxEntries nonces, accounts for every acceptance, and holds the nonce just accepted |
| Replay.ReplayedOnlyAfter | src/common/replay-protection.service.ts:62-65 | a call is refused as a replay only when its nonce was accepted less than maxSkewMs before |
| Replay.Retention | src/common/replay-protection.service.ts:62-72 | a nonce accepted at one call is refused at every later call less than maxSkewMs on, while fewer than maxEntries other nonces are accepted in between, and no more than half of maxEntries and one unless it was newly inserted |
| Replay.Spaced | src/common/replay-protection.service.ts:55-67 | absent that many other acceptances, acceptances of one nonce are at least maxSkewMs apart |
| Replay.AtMostThree | src/common/replay-protection.service.ts:55-67 | then one nonce with one timestamp is accepted at most three times in any run |
| Replay.AcceptedIffSpaced | src/common/replay-protection.service.ts:37-72 | and a call gets through iff nothing else is wrong with it and every earlier acceptance of its nonce was at least maxSkewMs before |
| Replay.AcceptedAgainIff | src/common/replay-protection.service.ts:37-72 | with that few other acceptances since its nonce was last accepted, a call gets through iff nothing else is wrong with it and that acceptance was at least maxSkewMs before |
| Replay.ResentAcceptedIff | src/common/replay-protection.service.ts:13-72 | then the same request sent again is accepted iff maxSkewMs have passed since and its timestamp is at most maxSkewMs old: a nonce can be used more than once inside the window around its timestamp |
| Replay.TwiceIff | src/common/replay-protection.service.ts:13-72 | a request just accepted can be accepted a second time, at some later instant, iff its timestamp is not before the first acceptance |
| Replay.RefinesReference | src/common/replay-protection.service.ts:37-90 | in a run with at most maxEntries distinct accepted nonces every verdict is that of a cache that never forgets |
| ReplayExample.SparedIsSharp | src/common/replay-protection.service.ts:62-72 | for every capacity from 5 on there is a run in which a nonce that was accepted again in its old place gets through once more, less than maxSkewMs later, with exactly one more other acceptance than is spared in between, though fewer than maxEntries |
| ReplayExample.CapacityIsSharp | src/common/replay-protection.service.ts:62-72 | for every capacity there is a run in which a newly inserted nonce does so with exactly maxEntries others in between |
| ReplayExample.ThreeAreAccepted | src/common/replay-protection.service.ts:55-67 | one request is accepted at the start, the middle and the end of the window around its timestamp, so three is sharp |
| Replay.SweepIff | src/common/replay-protection.service.ts:84-90 | a sweep drops a nonce iff it has expired and the cache is at least half full |
| ReplayExample.TwoSweepsInOneWindow | src/common/replay-protection.service.ts:84-90 | two sweeps one millisecond apart that each drop a nonce |
| Replay.SameInstant | src/common/replay-protection.service.ts:93-108 | an instant from 2001 on reads alike in seconds and in milliseconds, as a number and as a text |
| Replay.VerdictIs | src/common/replay-protection.service.ts:37-61 | each verdict before the cache iff what it says: protection is off, the nonce is not a text of 16 to 128 visible ASCII characters, the timestamp stands for no instant, or for one more than maxSkewMs away |
| Replay.ReplayProtectionService.AssertFresh | src/common/replay-protection.service.ts:37-73 | the cache and the verdict are those specified, the checks in the source's order |
| Replay.ReplayProtectionService.Remember | src/common/replay-protection.service.ts:62-72 | sweeps, refuses a live nonce, or stores it in its place and evicts the oldest key when over capacity |
| Replay.ReplayProtectionService.Sweep | src/common/replay-protection.service.ts:85-90 | drops exactly the expired nonces, and only when at least half full |
| Attestation.InTurnIsPath | src/attestation/attestation.service.ts:97-106 | checking each certificate against the next and the last against itself is having a signature path to a self-signed certificate |
| Attestation.AcceptedIff | src/attestation/attestation.service.ts:76-226 | a chain is accepted with a key and a level iff it parses, has a signature path to a trusted root, every certificate is in date and unrevoked, and its leaf vouches for the challenge, the boot state and the app at that level |
| Attestation.StricterAcceptsLess | src/attestation/attestation.service.ts:91-226 | enlarging the revoked set, shrinking the trusted roots or signers, raising the level or requiring verified boot never turns a rejection into an acceptance |
| Attestation.FirstFailure | src/attestation/attestation.service.ts:80-226 | a rejection carries the code of the first failing check in the fixed order |
| Attestation.NoFailure | src/attestation/attestation.service.ts:80-226 | and when none of the fifteen checks fails the chain is accepted |
| Attestation.AcceptedUnrevoked | src/attestation/attestation.service.ts:137-143 | no certificate of an accepted chain has a serial number that an entry of the configured list denotes |
| Serials.SameNumeral | src/attestation/attestation.module.ts:43-51 | two hexadecimal numerals of any case and leading zeros normalise alike iff they denote the same number |
| Serials.RevokedIff | src/attestation/attestation.module.ts:40-53 | a serial hits the revocation check iff some configured entry, in any mix of case, colons, blanks and leading zeros, denotes the same number |
| Serials.AllowedIff | src/attestation/attestation.module.ts:26-34 | a signing digest is allowed iff some configured entry has as many digits and the same value, in any mix of case, colons and blanks; leading zeros count |
| ClientIp.ExpandPrinted | src/common/client-ip.ts:31-62 | printing an address in any form of section 2.2 of RFC 4291 and expanding it in lower case gives its eight groups |
| ClientIp.SpellingValues | src/common/client-ip.ts:31-62 | those groups have the values of the address |
| ClientIp.KeyOfPrinted | src/common/client-ip.ts:7-29 | the key of a spelling is that of its groups, with or without a zone |
| ClientIp.SameKeyIff | src/common/client-ip.ts:7-29 | two spellings outside ::ffff:0:0/96 have equal keys iff their upper 64 bits agree |
| ClientIp.MappedKeyIff | src/common/client-ip.ts:15-23 | a mapped address gets exactly the key of its dotted IPv4 form iff its five leading groups are elided or written 0, and otherwise the key of ::/64 |
| ClientIp.PaddedZeroLosesKey | src/common/client-ip.ts:15-23 | a concrete padded spelling that does not get the IPv4 key |
| ClientIp.KeyOfQuad | src/common/client-ip.ts:7-10 | a dotted IPv4 address is its own key |
| ClientIp.KeyOfOther | src/common/client-ip.ts:7-10 | without an address the key is a fixed text; any text that is no IPv6 address is its own key, in lower case and without its zone |
| Headers.NominatedIff | src/proxy/proxy.service.ts:209-222 | a name is nominated iff some Connection header, wherever it stands, has it between two commas, in any case and with any white space around it |
| Headers.NormalizeIs | src/proxy/proxy.service.ts:200-254 | normalising fails iff some name or value is invalid, with the first invalid name, and otherwise keeps exactly the names that are not blocked, not x-forwarded-* and not nominated, each with its last value |
| Headers.PairsAre | src/proxy/proxy.service.ts:208-252 | an object with a Key and a Value stands for that one pair, whatever else it holds, any other for one pair a field in order, anything else for none; the pairs of a list are those of its entries in order |
| Headers.EncodingsAgree | src/proxy/proxy.service.ts:207-252 | a map, an array of maps and an array of Key/Value records with the same fields give the same result, when no map holds both Key and Value |
| Headers.CollectNominated | src/proxy/proxy.service.ts:208-222 | the first pass collects exactly the nominated names of all entries |
| Headers.NormalizeHeaders | src/proxy/proxy.service.ts:200-254 | the two passes compute the specified result |
| TargetPolicy.PrefixSegments | src/proxy/target-policy.ts:79-86 | a path lies below another iff its list of segments properly extends the other's |
| TargetPolicy.MatchesIffCovers | src/proxy/target-policy.ts:75-86 | an exact rule matches exactly its list of segments, a prefix rule without trailing slash exactly its extensions, one with trailing slash exactly those with at least one further, possibly empty, segment |
| TargetPolicy.NeverInsideSegment | src/proxy/target-policy.ts:75-86 | a prefix rule never matches a path that goes on inside its last segment, and does match one that goes on with a slash |
| TargetPolicy.PolicyAllows | src/proxy/target-policy.ts:35-73 | the policy stands iff every entry of both lists is valid, and then allows exactly the requests without an encoded slash that some entry admits |
| TargetPolicy.StandsIff | src/proxy/target-policy.ts:35-42 | the policy stands iff every entry of the host list has the form of a host and every entry of the route list that of a route |
| TargetPolicy.HostFormIff | src/proxy/target-policy.ts:103-105 | a text has the form of a host iff it is a name of letters, digits, hyphens and dots or a bracketed text of hexadecimal digits, colons and dots, and then nothing or a colon and one to five digits |
| TargetPolicy.HostFault | src/proxy/target-policy.ts:99-133 | an entry that is no host is reported under its list, with the entry and the first of three faults |
| TargetPolicy.RouteFault | src/proxy/target-policy.ts:135-170 | an entry that is no route is reported with the entry and the first of six faults |
| TargetPolicy.FirstFault | src/proxy/target-policy.ts:35-42 | the first invalid entry is the one reported, hosts before routes |
| TargetPolicy.AllowedIff | src/proxy/target-policy.ts:51-93 | a path with an encoded slash or backslash is refused; any other request is allowed iff the host list has an entry for its host, or the route list a route for its host, its method or any, and its path by segments |
| TargetPolicy.OrderIndependent | src/proxy/target-policy.ts:35-73 | lists with the same entries, in any order and number, decide alike |
| TargetPolicy.Monotone | src/proxy/target-policy.ts:35-73 | adding entries to either list never takes away a request that was allowed |
| TargetPolicy.SplitListConcat | src/proxy/target-policy.ts:88-93 | the entries of two lists joined by a comma are the entries of the first and then of the second, blanks and empty entries dropped |
| TargetPolicy.RouteRoundTrip | src/proxy/target-policy.ts:135-177 | every rule written as METHOD host/path, in any case of the method, with * for it or without it, with any white space in between, and with or without a final star, is read back as that rule |
| TargetPolicy.RouteReads | src/proxy/target-policy.ts:135-177 | a route is read as a rule iff it was written as an optional allowed verb or *, a host form, a rooted path and, exactly for a prefix, a final star, and the rule is that verb, the host in lower case without a default port, and the normalised path |
| TargetPolicy.VerbAnyCase | src/proxy/target-policy.ts:135-151 | a verb stands for a method iff it is that method in any case |
| TargetPolicy.HostEntryCovers | src/proxy/target-policy.ts:111-133 | a valid host entry matches exactly the requests to its host without a default port, whatever the method and path |
| TargetPolicy.DefaultPorts | src/proxy/target-policy.ts:103-109 | naming port 443 or 80 changes nothing about a host entry, be it a name or a bracketed address |
| TargetPolicy.PortsAdmitted | src/proxy/target-policy.ts:95-109 | an entry naming port 443, port 80 or none admits its host exactly on the default port of the scheme, so h:80 admits https on 443 and never on 80; any other port is admitted exactly as itself, on a scheme it is not the default of |
| Proxy.ParsedIs | src/common/payload.ts:23-83 | a decrypted object is taken for its own fields, null counting as absent and scalars as texts, and refused iff some field has another kind or a limit is exceeded |
| Proxy.SendsIff | src/proxy/proxy.service.ts:108-150 | a request is sent iff its method is allowed, its URL parses, is listed and of an allowed protocol and its headers are valid, and then with the method in capitals, GET by default, that URL, the forwardable headers with their last values, the normalised body unless it is empty or the method is GET, and the parsed or given parameters |
| Proxy.RefusedFor | src/proxy/proxy.service.ts:108-141 | a request that is not sent is refused for the first of eight faults, each spelled out |
| Proxy.SentIsListed | src/proxy/proxy.service.ts:108-120 | nothing is sent upstream but an allowed method to a host that an entry names, or a host, method and path that a route names, without an encoded slash, over an allowed protocol and with valid, forwardable headers; with both lists empty nothing is |
| Envelope.DecryptIff | src/encryption/encryption.service.ts:103-162 | a request decrypts, and to what it contains, iff an accepted key of the name it gives owns its AES key and the lengths, the seal and the payload are right |
| Envelope.DecryptFails | src/encryption/encryption.service.ts:109-135 | an unknown key id is reported iff no accepted key has the name, a wrong key iff one does but none of them owns the AES key |
| Envelope.RotationKeeps | src/encryption/encryption.service.ts:107-135 | adding keys anywhere in the list never changes how a request decrypts that decrypted before, with or without KeyId |
| Envelope.RetiredKeyFails | src/encryption/encryption.service.ts:107-135 | a request sealed for none of the accepted keys fails on its key |
| Envelope.EncryptionService.OnModuleInit | src/encryption/encryption.service.ts:76-77 | from then on a request decrypts, and to what it contains, iff it is sealed for one of the loaded keys and names no key or the id of that one |
| Envelope.EncryptionService.Decrypt | src/encryption/encryption.service.ts:103-162 | the loop over the candidates and the later checks compute the specified result |
| WebClient.RequestIsNoResult | clients/web/gatewayClient.js:144-162 | a request read as a reply is never a result |
| WebClient.OnlyGenuine | clients/web/gatewayClient.js:113-141 | a client that requires encryption accepts, from an attacker who controls the reply, owns any keys but the gateway's, and has the request, every response the gateway ever sealed under its key and anything without that key, only a result the gateway sealed under it |
| Attacker.NothingForged | clients/web/gatewayClient.js:74-97 | from byte strings that do not give away a secret key, wrapping, sealing, guessing and opening with owned keys make nothing new that is sealed under it |
| WebClient.ToB64 | clients/web/gatewayClient.js:4-11 | however many chunks it takes, every byte becomes its character in order |
| Gateways.RequestArrives | clients/web/gatewayClient.js:65-72 | the request reaches the gateway field by field, or is refused exactly when it is not one the gateway takes |
| Gateways.HeadersForwarded | src/proxy/proxy.service.ts:207-252 | the headers it is normalised from are the application's own, in order and whatever their names |
| Gateways.ProxyController.HandleGateway | src/proxy/proxy.controller.ts:41-57 | decrypts, checks freshness, forwards and answers in the server's mode, changing only the replay cache |
| Gateways.RoundTrip | src/proxy/proxy.controller.ts:41-57 | when JSON gives back the two values exchanged, client send, decrypt, freshness, forward, response and client decode show exactly what forwarding directly would: status, headers and data iff the status is 100 to 599, the data are defined and the mode is permitted; otherwise the matching error |
| Gateways.ModeIsServers | src/proxy/proxy.controller.ts:49-56 | the response mode follows the server's setting whatever the request, and a sealed response is sealed under the key the request wrapped |
| Gateways.RunIsReplay | src/proxy/proxy.controller.ts:44-45 | with replay protection on, runs of the gateway are runs of the replay cache over the decrypted nonces and timestamps |
| Gateways.FreshIsAnswered | src/proxy/proxy.controller.ts:44-56 | replay protection only takes requests away: one judged fresh is answered as it would be without it, any other is refused with its verdict |
| Gateways.ForwardedAtMostThree | src/proxy/proxy.controller.ts:44-47 | requests with one nonce and one timestamp, however sealed, get through at most three times in a run quiet for the nonce |
| Gateways.ResentIsRefused | src/proxy/proxy.controller.ts:44-47 | a request that got through is refused when sent again within maxSkewMs while little else is accepted in between |

## Left out

- UpstashKvStore: a remote store over HTTP; only the in-memory store is modelled.
- The network: axios, timeouts and the 5 MB cap are one parameter that says how an upstream request ends.
- Framework plumbing: NestJS wiring, request DTO decorators, logging, `src/main.ts`, health and inspector routes.
- Real cryptography, X.509 and ASN.1: RSA-OAEP and AES-GCM are symbolic, certificates are parsed records and who verifies what is an abstract relation; `cert.verify` throwing is not distinguished from answering false.
- URL, JSON, base64, `Date.parse` and `net.isIP`: parameters. A lemma that needs it assumes that base64 gives back byte strings, that JSON gives back the very values exchanged, and that `net.isIP` accepts the printed forms; the JSON of plain replies is passed as it is.
- Length and depth limits of `src/common/payload.ts`: one parameter; the checks on kinds of fields are modelled.
- `sanitizeResponseHeaders`: the upstream's answer is taken after it; it is a single filter with no second pass.
- Key loading, generation and strict configuration parsing: single-branch checks on the environment.
- Non-ASCII case mapping: `toLowerCase` and `toUpperCase` are modelled on ASCII letters.
- Sub-millisecond clock reads: each store operation reads the clock once, where the source reads it up to three times; clocks do not run backwards.
- A store of capacity zero: `MemoryKvStore` does not check its capacity, the lemmas take it to be at least one.
- Floating-point rounding: timestamps are real numbers.
- Order of the rate limiter's table: never observable, so that table is a plain map.
- Random numbers: challenge ids are assumed fresh; timing-safe comparison is plain equality.
- Android, iOS and Flutter clients: the same envelope in other languages.
- Several instances: every table is per process.
