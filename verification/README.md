# MeshLake verification

A Dafny model of the parts of MeshLake, a self-hosted encrypted overlay network, where its guarantees come from, with
proofs of those guarantees over every input and every run:

- the pairwise session channel: handshake, header codec, AEAD packets and the 64-packet replay window;
- the controller: networks, enrollment, address allocation, route authorization, policies, removal, refresh, restart;
- the signed manifests members accept, and the longest-match routing they drive;
- the crash-safe state file: temporary file, replacement, backup, recovery, start-up;
- registrations at roots and relays, and acknowledgements under a rotating service identity;
- the canonical PEM bundle of TLS roots, and the two editors of exit candidates.

`dafny verify dfyconfig.toml` checks the project.

## How it is laid out

| modules | what they model |
|---|---|
| `Wrappers`, `Words`, `Bytes`, `Sorting`, `Lexicographic`, `Crypto` | shared vocabulary: results, 64-bit words and shifts, byte strings, stable sort and dedup, ideal signatures |
| `ReplayWindows`, `SessionCodec`, `SessionKeys`, `SessionChannel`, `Handshake` | `session.rs` |
| `Cidr`, `Domains`, `Policy`, `PolicyMethods` | `policy.rs` |
| `Membership`, `Authorization` | certificates in `crypto.rs`, and `authorization.rs` |
| `AddressPool`, `ControllerModel`, `Controllers` | the controller's allocators, requests as functions on its state, and the mutable controller object |
| `Signability`, `NormalPolicies`, `NetworkInvariants`, `ControllerRuns` | what every request and every run keeps |
| `Requests`, `TrafficKeys`, `ExampleNetworks`, `Tokens`, `Epochs`, `Revocation`, `IssuerVerifier`, `SignableSteps`, `Restart`, `RefreshCache`, `PolicyEditing` | the guarantees that span requests |
| `StateFile`, `StateStore` | `state_protection.rs`: the protocol with crashes, and its methods |
| `Registration`, `ServiceIdentity`, `RelayAck` | `root.rs`, `service_identity.rs`, `relay.rs` |
| `Base64`, `PemBundle`, `PemLayouts` | the PEM normalizer of the command line |

Code that computes is a function, code that updates in place is a class or a method with loops, and each such method is
proved equal to the function that the theorems about runs speak of.

## Assumptions

- Cryptography is ideal: a signature verifies exactly when it was made with that key over that message, a ciphertext opens
  exactly under the key, nonce and associated data it was made with, Diffie-Hellman commutes. Encodings are injective.
- Random identifiers are fresh, and so are generated traffic keys where `TrafficKeys` speaks of them. A request reads the clock once, except that a refresh is checked, purged, stamped and
  answered at four instants. The controller's clock may go back; only the refresh cache needs time to go forward.
- A refresh compares its issue time with the wall clock and ages its nonce by the monotonic clock. The model of the cache has
  one time line for both, so a wall clock set back while the process runs is not covered.
- The text of a prefix is a parsed prefix with a number for its spelling, or text that does not parse. Printing keeps host
  bits, as the program's does, so duplicate detection compares text. One fixed order stands for the order of the strings.
- Directory operations reach the disk in the order they were made, a write-through call is durable when it returns, and
  synced file contents survive. Recovery removes the backup before it syncs the directory, so it depends on that order.

## What the code does not promise

Four expectations are not met by the code. Each has a counterexample, in a state satisfying the invariant of the controller,
or a concrete message, and an exact condition.

- A device that enrolls again has its allowed routes reset to the network's prefixes. If the policy routes anything else
  through it, the policy can no longer be signed, and the controller refuses its next start
  (`SignableSteps.ChangeSignable`, `SignableSteps.OfficeGatewayRejoins`, `Restart.HarmfulJoinStopsTheNextStart`,
  `Restart.RejoinStopsTheController`).
- An acknowledgement signed just before a rotation window, with the one key required then, is refused inside the window
  although its lifetime has not ended (`RelayAck.AckVerifiesIff`, `RelayAck.RefusedAcrossTheWindowStart`).
- Epochs saturate, so at key epoch 2^64-1 a removal no longer reaches the other members' old certificates
  (`Revocation.RemovalRevokesIffReached`, `Revocation.SaturatedHomeNetwork`).
- Refreshes are verified before they wait for the nonce lock. Replays are refused for certain only while that wait stays
  within 59 seconds and a nanosecond (`RefreshCache.ReplaysRefusedIffPrompt`, `RefreshCache.LateRunAnswersTwice`).

The error text of the Windows replacement calls it atomic; the model follows the call's documented two moves, between which a crash
leaves only the backup.

Rows marked **Main** are the main results; the others are what they rest on and how the code reaches them.

## Model

| member | source | states |
|---|---|---|
| ReplayWindows.CanAcceptIsExact | crates/meshlake-core/src/session.rs:255-264 | **Main.** `can_accept` on the (highest, bitmap) pair holds if and only if the sequence was never accepted and is less than 64 behind every accepted one |
| ReplayWindows.MarkRepresents | crates/meshlake-core/src/session.rs:266-283 | **Main.** after an acceptable sequence is marked, the pair stands for exactly the accepted set plus that sequence; an in-window shift is below 64 |
| ReplayWindows.ReplayWindow.MarkSequence | crates/meshlake-core/src/session.rs:266-283 | the in-place update has the value of the marking function and keeps the pair standing for the accepted set |
| Words.ShiftLeftMoves | crates/meshlake-core/src/session.rs:271-279 | a 64-bit left shift moves bit d to bit d + k and drops what leaves the word |
| SessionCodec.RoutingRoundTrip | crates/meshlake-core/src/session.rs:355-379 | a 53-byte routing header parses back to the kind and the three identifiers it was built from, whatever follows it |
| SessionCodec.HeaderLayout | crates/meshlake-core/src/session.rs:497-536 | where magic, kind, network, source, destination, session and sequence stand in the headers and the nonce |
| SessionCodec.RoutingIsExact | crates/meshlake-core/src/session.rs:355-379 | bytes parse to a routing if and only if they begin with its 53-byte header |
| Bytes.BigEndianDigit | crates/meshlake-core/src/session.rs:512-536 | the most significant byte of a number comes first |
| SessionCodec.DataHeaderRoundTrip | crates/meshlake-core/src/session.rs:410-427 | **Main.** the 77-byte data header parses back to its five fields |
| SessionCodec.NonceInjective | crates/meshlake-core/src/session.rs:531-536 | different (session, sequence) pairs give different nonces |
| SessionCodec.BuildRoutingHeader | crates/meshlake-core/src/session.rs:497-510 | filling the array field by field gives the routing header and leaves the bytes after it alone |
| SessionCodec.BuildSessionDataHeader | crates/meshlake-core/src/session.rs:512-529 | the array-filling builder produces the very header the parser inverts |
| SessionChannel.OpenPacket | crates/meshlake-core/src/session.rs:206-236 | `open` on a mutable window: the result and new window are those of the model, and a failed call leaves the window unchanged |
| SessionChannel.OpenIsExact | crates/meshlake-core/src/session.rs:206-236 | **Main.** a packet opens if and only if it is, bit for bit, one sealed by the peer in this session with an acceptable sequence, and then yields what was sealed |
| SessionChannel.HeaderOfParsed | crates/meshlake-core/src/session.rs:410-427 | bytes that parse as a data header are the header of what they parse to |
| SessionChannel.DataHeaderIsExact | crates/meshlake-core/src/session.rs:410-427 | a packet has a data header if and only if it begins with that header and has room for a tag |
| SessionChannel.RefusalNamesItsCause | crates/meshlake-core/src/session.rs:206-236 | a malformed packet, and another session or an unacceptable sequence, are reported exactly when they are the cause |
| SessionChannel.SealThenOpen | crates/meshlake-core/src/session.rs:180-236 | opening with a fresh window what the peer sealed gives the sealed plaintext and header |
| SessionChannel.ReflectionRejected | crates/meshlake-core/src/session.rs:180-236 | a packet never opens at the side that sealed it, and the attempt changes nothing |
| SessionChannel.OpenKeepsSafe | crates/meshlake-core/src/session.rs:206-236 | any arriving packet keeps: each sequence delivered at most once, only what the peer sealed, window equal to the delivered sequences |
| SessionChannel.ReceiveIsSafe | crates/meshlake-core/src/session.rs:206-236 | **Main.** the same over every run of dropped, duplicated, reordered and injected packets |
| SessionChannel.DeliversTheSealedPlaintext | crates/meshlake-core/src/session.rs:180-236 | **Main.** when the sender never reuses a sequence, what is delivered under a sequence is the one plaintext and header sealed under it |
| SessionChannel.DeliversWithinWindow | crates/meshlake-core/src/session.rs:206-236 | **Main.** a genuine packet is delivered if its sequence is new and less than 64 behind, and otherwise changes nothing |
| SessionChannel.ReceiveAll | crates/meshlake-core/src/session.rs:206-236 | the loop over arriving packets on one mutable window delivers what the run model says |
| Handshake.HandshakeAgrees | crates/meshlake-core/src/session.rs:84-155 | **Main.** start, accept and complete on matching inputs inside the skew succeed with mirrored direction keys and one session id |
| Handshake.CompleteAuthenticates | crates/meshlake-core/src/session.rs:115-155 | a completed handshake was answered, within the skew, by the holder of the responder key, for this init, with mirrored keys on its side if the network keys agree |
| Handshake.AcceptAuthenticates | crates/meshlake-core/src/session.rs:286-353 | an accepted init was signed by the holder of the initiator key for this network, pair and time |
| Handshake.AcceptIsExact | crates/meshlake-core/src/session.rs:286-353 | **Main.** an init is accepted if and only if its header is that of its own network and pair, version and time fit, the initiator key signed it as an init and its ephemeral key is not of low order; what is answered is signed for the way back |
| Handshake.CompleteIsExact | crates/meshlake-core/src/session.rs:115-155 | **Main.** a response completes if and only if it comes from this responder, echoes every field of the init, version and time fit, the responder key signed it as a response and its ephemeral key is not of low order |
| Handshake.KeysBindTheSession | crates/meshlake-core/src/session.rs:429-467 | two derivations sharing a traffic key agree on network key, secret, network, pair, session and ephemeral keys; an all-zero secret derives none |
| Handshake.ResponseIsNotInit | crates/meshlake-core/src/session.rs:566-572 | a signed response is never accepted as an init, although its JSON reads as one |
| Handshake.HandshakeThenTraffic | crates/meshlake-core/src/session.rs:84-236 | **Main.** after any handshake, what either side seals the other opens, and neither opens its own |
| Cidr.SharedAddressNests | crates/meshlake-core/src/policy.rs:454-464 | two networks of one family that share an address are nested, the longer prefix inside |
| Cidr.SharedAddressCovers | crates/meshlake-core/src/policy.rs:454-464 | of two networks sharing an address, one covers the other |
| Cidr.ContainsIsPrefixMatch | crates/meshlake-core/src/policy.rs:299-311 | an address is in a network if and only if the two agree on everything but host bits |
| Cidr.CoversIffSubset | crates/meshlake-controller/src/main.rs:1195-1205 | **Main.** the covering test holds if and only if every address of the target is in the allowed network |
| Membership.AcceptedIffSigned | crates/meshlake-core/src/crypto.rs:885-934 | any certificate is accepted if and only if the trusted controller key signed it (version 1 over id, epoch and claims, version 0 over the claims), it has not expired, and a version 1 one has an id and an epoch; no other version is |
| Membership.AcceptedIffIssued | crates/meshlake-core/src/crypto.rs:861-934 | **Main.** a certificate not of version 0 is accepted if and only if the holder of the controller key issued exactly it, with an id and an epoch, and it has not expired |
| Membership.RefusalNamesItsCause | crates/meshlake-core/src/crypto.rs:885-934 | another controller and expiry are reported exactly when they are the cause |
| Membership.SignedCertificateVerifies | crates/meshlake-core/src/crypto.rs:861-934 | an issued certificate verifies exactly under its controller key, with a set identifier and epoch, up to its expiry |
| Authorization.SignedManifestLists | crates/meshlake-core/src/authorization.rs:169-216 | sorting and deduplication change neither who is authorized nor what is revoked |
| Authorization.SignedManifestIsOrdered | crates/meshlake-core/src/authorization.rs:169-216 | a signed manifest lists the same members in order, and the revoked ids in order and once |
| Authorization.SignedManifestVerifies | crates/meshlake-core/src/authorization.rs:218-270 | a signed manifest with its hint verifies from 120 seconds before issue to expiry and at no other time |
| Authorization.ManifestAcceptedIffSigned | crates/meshlake-core/src/authorization.rs:218-270 | **Main.** any manifest is accepted if and only if the trusted controller key signed its whole payload, it is live, and its hint, if any, is live, signed by the same key and agrees on network and both epochs |
| Authorization.AuthorizesIffListed | crates/meshlake-core/src/authorization.rs:272-284 | a manifest authorizes a certificate if and only if its payload lists that device, id, key and epoch in that network and does not list the id as revoked |
| Authorization.RefreshVerifiesExactly | crates/meshlake-core/src/authorization.rs:327-352 | a refresh verifies if and only if it has version 1, is within the skew, and the holder of the device key signed all of it |
| Policy.RouteVerdictIsExact | crates/meshlake-core/src/policy.rs:404-419 | the route loop passes if and only if every prefix is canonical text and no text repeats |
| Policy.ValidateExitNodes | crates/meshlake-core/src/policy.rs:348-361 | passes if and only if there are at most 16 candidates, each with a protocol, of different devices |
| Policy.UnusableServers | crates/meshlake-core/src/policy.rs:428-435 | which addresses cannot be DNS servers, as ranges |
| Policy.VerifyIsExact | crates/meshlake-core/src/policy.rs:201-297 | acceptance is exactly one conjunction: form, controller, network, time, rollback, signature, every gateway authorized and covered |
| Policy.RefusalsInOrder | crates/meshlake-core/src/policy.rs:201-240 | which refusal a policy gets first: version, controller, network, epoch 0, authorization, rollback, lifetime |
| Policy.BestRouteIsBest | crates/meshlake-core/src/policy.rs:299-311 | the selected route matches and is longest among matches, the last one among equals; none is selected only if none matches |
| Policy.LongestMatch | crates/meshlake-core/src/policy.rs:299-311 | **Main.** the selected network lies inside the network of every other matching route |
| Policy.VerifiedGatewayIsAuthorized | crates/meshlake-core/src/policy.rs:201-311 | **Main.** if a policy verifies and selects a gateway for a destination, then the trusted key signed the policy, the gateway's unexpired certificate and the authorization payload, the payload lists that certificate as active and unrevoked, and one of its allowed routes contains the destination |
| PolicyMethods.ValidateNormalizedPolicy | crates/meshlake-core/src/policy.rs:404-440 | the loops over prefix and domain sets give the verdict of the model, first error included |
| PolicyMethods.ValidateDns | crates/meshlake-core/src/policy.rs:420-439 | passes if and only if counts, distinctness, usability and normal domains all hold |
| PolicyMethods.NormalizePolicy | crates/meshlake-core/src/policy.rs:327-341 | rewriting in place, sorting, deduplicating and validating gives the normalizer of the model |
| Domains.TrimIsExact | crates/meshlake-core/src/policy.rs:467-467 | trimming takes away white space at both ends, all of it and nothing else |
| Domains.NormalizeDomainIsExact | crates/meshlake-core/src/policy.rs:466-484 | **Main.** a text normalizes to a domain if and only if it spells it, in any case, with white space around and dots after it, and the domain is at most 253 characters, character by character a proper one |
| Domains.NormalizeDomainIdempotent | crates/meshlake-core/src/policy.rs:466-484 | a normalized domain normalizes to itself |
| AddressPool.LowestFreeIsLowest | crates/meshlake-controller/src/main.rs:1245-1252 | the scan returns the smallest free address, and fails if and only if all are in use |
| AddressPool.Ipv4ChoiceIsExact | crates/meshlake-controller/src/main.rs:1225-1253 | an address is given out if and only if one strictly between the first and last of the prefix is free, and it is the least such |
| AddressPool.Ipv6ChoiceIsExact | crates/meshlake-controller/src/main.rs:1255-1292 | the same for IPv6, where the last address counts |
| AddressPool.AllocateIpv4 | crates/meshlake-controller/src/main.rs:1225-1253 | the loop returns the lowest free host address, neither network nor broadcast, or fails exactly when there is none |
| AddressPool.AllocateIpv6 | crates/meshlake-controller/src/main.rs:1255-1292 | **Main.** trying at most one offset more than there are used addresses gives the answer of scanning the whole prefix, also at the end of the address space |
| AddressPool.SearchOffsets | crates/meshlake-controller/src/main.rs:1277-1291 | the bounded search over offsets equals the unbounded scan, by counting the hits |
| Signability.BuildRoutesIsExact | crates/meshlake-controller/src/main.rs:1110-1147 | the route loop succeeds if and only if every gateway is a certified member allowed to route the prefix, and yields those routes |
| Signability.BuildExitsIsExact | crates/meshlake-controller/src/main.rs:1148-1180 | the exit loop succeeds if and only if every gateway is a certified member |
| Signability.DnsIsExact | crates/meshlake-core/src/policy.rs:420-439 | the DNS checks accept exactly at most 8 usable servers and 16 valid domains, repetitions aside, and domains only with servers |
| Signability.NormalizeIsExact | crates/meshlake-core/src/policy.rs:327-341 | the normalizer accepts exactly at most 256 parseable, non-default, pairwise different prefixes with valid DNS |
| Signability.SignPolicyIsExact | crates/meshlake-controller/src/main.rs:1106-1193 | **Main.** signing succeeds, at any time and with any key, if and only if the stored policy is signable |
| Signability.SignedPolicyContents | crates/meshlake-controller/src/main.rs:1106-1193 | **Main.** a signed manifest is the stored policy in normal form with every gateway's current certificate, which allows its route |
| NormalPolicies.NormalFormIsNormal | crates/meshlake-core/src/policy.rs:327-346 | the normal form of a valid policy is a fixed point of normalizing |
| NormalPolicies.WithoutIsNormal | crates/meshlake-controller/src/main.rs:678-686 | dropping a removed device's entries leaves a normal policy normal |
| NetworkInvariants.NewcomerAddresses | crates/meshlake-controller/src/main.rs:1207-1223 | a new member gets one IPv4 host address, one IPv6 address if and only if there is an IPv6 prefix, held by nobody |
| NetworkInvariants.MemberKeepsAddresses | crates/meshlake-controller/src/main.rs:1207-1223 | a member that enrolls again is given the addresses it holds |
| NetworkInvariants.EnrolledInv | crates/meshlake-controller/src/main.rs:485-566 | enrollment keeps the network invariant: addresses, identities, epochs, normal policy |
| NetworkInvariants.RemovedInv | crates/meshlake-controller/src/main.rs:661-704 | removal keeps the network invariant |
| NetworkInvariants.AllowedInv | crates/meshlake-controller/src/main.rs:609-659 | route authorization keeps the network invariant |
| NetworkInvariants.UpdatedPolicy | crates/meshlake-controller/src/main.rs:729-770 | an update is accepted if and only if the candidate is signable, and stores the normal form of what was submitted |
| ControllerRuns.NextKeepsNetworks | crates/meshlake-controller/src/main.rs:401-770 | every request keeps the invariant of every network |
| ControllerRuns.RunKeepsNetworks | crates/meshlake-controller/src/main.rs:401-829 | **Main.** every run from any state satisfying it keeps the invariant of every network |
| ControllerRuns.AddressesNeverCollide | crates/meshlake-controller/src/main.rs:485-566 | **Main.** in every reachable state each member holds exactly the required host addresses, and two addresses are equal only if they are the same member's same address |
| ControllerRuns.EpochsNeverDecrease | crates/meshlake-controller/src/main.rs:661-770 | **Main.** between creation and deletion no epoch of a network goes down, its prefixes do not change and no revocation disappears |
| ControllerRuns.MemberKeepsIdentity | crates/meshlake-controller/src/main.rs:523-554 | **Main.** a device keeps its addresses and certificate id through every run that neither removes it nor deletes the network |
| Revocation.AuthorizedIffCurrent | crates/meshlake-controller/src/main.rs:1073-1104 | a manifest authorizes exactly the certificates of current members: network, epoch, id and key match and the id is not revoked |
| Revocation.ReleasedIsCurrent | crates/meshlake-controller/src/main.rs:485-829 | every certificate a request hands out is of an active id at the current key epoch |
| Revocation.NothingReactivates | crates/meshlake-controller/src/main.rs:529-532 | an identifier drawn earlier is active after a request only if it was active before, even across deletion and re-creation |
| Revocation.NextKeepsWorld | crates/meshlake-controller/src/main.rs:401-829 | every request keeps: all certificates handed out carry drawn ids, and active ones no epoch above the network's |
| Revocation.RevocationIsForever | crates/meshlake-controller/src/main.rs:661-704 | **Main.** a certificate handed out before a removal that reaches it is authorized by no manifest signed after it, in any continuation of the run |
| Revocation.RemovalRevokesIffReached | crates/meshlake-controller/src/main.rs:661-704 | **Main.** an authorized certificate stops being authorized by a removal if and only if it is the removed member's or the key epoch is below 2^64-1 |
| Revocation.SaturatedRemovalMissesOthers | crates/meshlake-controller/src/main.rs:661-704 | **Main.** at key epoch 2^64-1, in a two-member network satisfying the invariant, the other member's certificate is authorized before and after a removal |
| Revocation.SaturatedHomeNetwork | crates/meshlake-controller/src/main.rs:661-704 | the concrete case: 10.0.0.1 and 10.0.0.2 in 10.0.0.0/24 |
| IssuerVerifier.AcceptedExactly | crates/meshlake-controller/src/main.rs:1073-1193 | **Main.** a policy and an authorization manifest signed from one network state verify together exactly at the instants in both lifetimes and against exactly the smaller previous epochs |
| IssuerVerifier.ReachableManifestsAreAccepted | crates/meshlake-core/src/policy.rs:201-297 | **Main.** the same for every network of every reachable controller |
| IssuerVerifier.StalePolicyIsRefused | crates/meshlake-core/src/policy.rs:201-297 | **Main.** a policy naming, as a route or exit gateway, a certificate handed out before a removal that reaches it fails against every authorization manifest signed after the removal, in every continuation of the run |
| SignableSteps.EnrolledSignable | crates/meshlake-controller/src/main.rs:525-551 | enrolling keeps a signable policy signable if and only if the device's policy routes lie inside the network prefixes |
| SignableSteps.NewcomerHasNoRoutes | crates/meshlake-controller/src/main.rs:525-551 | a first enrollment always meets that condition |
| SignableSteps.RemovedSignable | crates/meshlake-controller/src/main.rs:661-704 | removing a member keeps the policy signable |
| SignableSteps.NormalizedSignable | crates/meshlake-controller/src/main.rs:742-766 | storing the normal form keeps the policy signable |
| SignableSteps.ChangeSignable | crates/meshlake-controller/src/main.rs:401-770 | **Main.** a request that changes a signable network leaves it signable if and only if it is not an enrollment of a device whose routes leave the network |
| SignableSteps.RejoinBreaksPolicy | crates/meshlake-controller/src/main.rs:525-551 | **Main.** for every prefix the network does not cover: in a state satisfying the invariant the policy is served, its gateway enrolls again with its token and is answered, and the policy is then an internal error |
| SignableSteps.OfficeGatewayRejoins | crates/meshlake-controller/src/main.rs:525-551 | the concrete case: 10.0.0.1 of 10.0.0.0/24 as the gateway to 192.168.0.0/16 |
| SignableSteps.RunKeepsSignable | crates/meshlake-controller/src/main.rs:401-770 | runs without such enrollments keep every policy signable |
| SignableSteps.PolicyIsAlwaysServed | crates/meshlake-controller/src/main.rs:719-727 | **Main.** in those runs reading any network's policy succeeds at any time |
| Restart.MigrateAndValidate | crates/meshlake-controller/src/main.rs:1024-1071 | the schema test and the migration and validation loops compute the migrated state, whether it changed, and whether the start is refused |
| Restart.MigrateNetworks | crates/meshlake-controller/src/main.rs:1033-1065 | keys of the wrong length are replaced in an older schema and refused in the current one, missing epochs and certificate ids are filled in, nothing else changes, and the flag says whether anything did |
| Restart.ValidateState | crates/meshlake-controller/src/main.rs:1002-1022 | passes if and only if the administrator token is not blank, every network key has 32 bytes and every policy can be signed |
| Restart.MigrationIsExact | crates/meshlake-controller/src/main.rs:1033-1065 | a migrated network has a 32-byte key, epochs of at least 1 and an id for every member, keeps what was in order, changes nothing else, and migrates to itself |
| Restart.RestartedExactly | crates/meshlake-controller/src/main.rs:1002-1071 | **Main.** a start succeeds if and only if the schema is not newer, keys have 32 bytes unless it is older, the token is not blank and every migrated policy is signable; it loads the migrated networks |
| Restart.RestartIsExact | crates/meshlake-controller/src/main.rs:1024-1071 | **Main.** a restart in any reachable state changes nothing, and is refused if and only if some network's policy can no longer be signed |
| Restart.HarmlessRunsRestart | crates/meshlake-controller/src/main.rs:1024-1071 | **Main.** runs without harmful enrollments always restart with the state they had |
| Restart.HarmfulJoinStopsTheNextStart | crates/meshlake-controller/src/main.rs:1002-1022 | **Main.** after a harmful enrollment the next start is refused |
| Restart.RejoinStopsTheController | crates/meshlake-controller/src/main.rs:1002-1022 | **Main.** a state satisfying the invariant from which the controller starts, and a gateway's answered enrollment after which it does not |
| Controllers.SignNetworkPolicy | crates/meshlake-controller/src/main.rs:1106-1193 | the two loops, the normalizer and the exit check give exactly the signing function of the model |
| Controllers.BuildPolicyRoutes | crates/meshlake-controller/src/main.rs:1110-1147 | the loop with its three early exits builds the routes of the model |
| Controllers.AssignAddresses | crates/meshlake-controller/src/main.rs:1207-1223 | what a device holds, completed by the two allocators, is the assignment of the model |
| Controllers.Controller.CreateNetwork | crates/meshlake-controller/src/main.rs:401-440 | keeps the run invariant; new state and response are exactly those of the run model |
| Controllers.Controller.IssueToken | crates/meshlake-controller/src/main.rs:442-483 | keeps the run invariant; new state and response are exactly those of the run model |
| Controllers.Controller.Enroll | crates/meshlake-controller/src/main.rs:485-566 | keeps the run invariant; new state and response are exactly those of the run model, including a token bound by a failed enrollment |
| Controllers.Controller.DeleteNetwork | crates/meshlake-controller/src/main.rs:578-593 | keeps the run invariant; new state and response are exactly those of the run model: the network and its tokens go |
| Controllers.Controller.AuthorizeMemberRoutes | crates/meshlake-controller/src/main.rs:609-659 | keeps the run invariant; new state and response are exactly those of the run model |
| Controllers.Controller.RemoveMember | crates/meshlake-controller/src/main.rs:661-704 | keeps the run invariant; new state and response are exactly those of the run model |
| Controllers.Controller.UpdatePolicy | crates/meshlake-controller/src/main.rs:729-770 | keeps the run invariant; new state and response are exactly those of the run model |
| Controllers.Controller.ReadPolicy | crates/meshlake-controller/src/main.rs:719-727 | keeps the run invariant; the response is that of the run model |
| Controllers.Controller.ReadAuthorization | crates/meshlake-controller/src/main.rs:706-717 | the response is the authorization manifest of the network, or not found |
| Controllers.Controller.RefreshMembership | crates/meshlake-controller/src/main.rs:772-829 | keeps the run invariant; the nonce cache and the response follow the cache model, and a refused replay still stamps its nonce |
| SignableSteps.AllowedExactly | crates/meshlake-controller/src/main.rs:623-647 | a member's allowed routes become exactly the network's prefixes and the printed forms of the requested ones, sorted, each once |
| Tokens.RedeemingBinds | crates/meshlake-controller/src/main.rs:496-514 | a successful enrollment used an existing, unexpired token of that network, unbound or bound to the same device, and binds it |
| Tokens.NextKeepsBound | crates/meshlake-controller/src/main.rs:401-593 | no request takes a token from the device it is bound to, and a bound token never comes back unbound |
| Tokens.TokenServesOneDevice | crates/meshlake-controller/src/main.rs:485-566 | **Main.** in every run, two successful enrollments with one token are of the same device |
| Epochs.EpochsTrack | crates/meshlake-controller/src/main.rs:661-770 | **Main.** over every run that does not delete a network, short of saturation, its policy, traffic key and authorized members change only together with their epochs |
| Epochs.EqualEpochsAuthorizeAlike | crates/meshlake-controller/src/main.rs:1073-1104 | **Main.** two manifests of one network that carry equal authorization epochs authorize the same certificates |
| Epochs.ManifestEpochsNeverDecrease | crates/meshlake-controller/src/main.rs:1073-1104 | manifests signed later in a run that does not delete the network carry no smaller epoch and no shorter list of revoked ids |
| Epochs.EqualEpochsRouteAlike | crates/meshlake-controller/src/main.rs:1106-1193 | **Main.** two policy manifests of one network with equal policy epochs hold the same prefixes through the same devices, the same exit candidates and the same DNS settings |
| Epochs.RemovedStaysListed | crates/meshlake-controller/src/main.rs:676-680 | after a removal every manifest lists the removed certificate id as revoked for as long as the network exists |
| IssuerVerifier.CurrentGatewayOk | crates/meshlake-controller/src/main.rs:1122-1147 | a current member's certificate passes every check on a gateway for exactly a day |
| IssuerVerifier.SignedPolicyForm | crates/meshlake-core/src/policy.rs:153-199 | a signed policy has the version its exits call for, the network's epoch and a lifetime of 90 seconds, and passes every check of form |
| IssuerVerifier.SignedEpochs | crates/meshlake-controller/src/main.rs:1073-1104 | a signed authorization manifest and its hint carry the network's epochs and a lifetime of 90 seconds |
| IssuerVerifier.EnrollmentIsUsable | crates/meshlake-controller/src/main.rs:485-566 | what an enrollment returns is in order: the device's own certificate with its key and required addresses, dated now, good for exactly a day under the manifest returned with it, which carries the current epochs |
| IssuerVerifier.RefreshIsUsable | crates/meshlake-controller/src/main.rs:809-829 | what a refresh returns is in order in the same sense, and carries the current traffic key |
| Requests.CreateIsExact | crates/meshlake-controller/src/main.rs:401-440 | when creation succeeds, which error it gives otherwise, and the one empty network at epoch 1 it adds |
| Requests.DeleteIsExact | crates/meshlake-controller/src/main.rs:578-593 | when deletion succeeds, and that it takes away that network and its tokens alone |
| Requests.IssueIsExact | crates/meshlake-controller/src/main.rs:442-483 | when a token is issued, its lifetime between a minute and a day, 900 s by default, and that nothing else changes |
| Requests.AddressesAvailableIff | crates/meshlake-controller/src/main.rs:1207-1292 | a member always keeps its addresses; a newcomer gets them if and only if every required prefix has a free host address |
| Requests.AssignmentIsExact | crates/meshlake-controller/src/main.rs:1207-1223 | in any state a device is assigned all it holds, then what the pool gives out next of a family it lacks and needs |
| Requests.EnrollIsExact | crates/meshlake-controller/src/main.rs:485-566 | **Main.** when enrollment succeeds, what it changes in the network, what it answers, and that a good token is bound even when it fails |
| Requests.RemoveIsExact | crates/meshlake-controller/src/main.rs:661-704 | when removal succeeds and everything it changes: member, certificate, revocation date, policy entries, traffic key and epochs |
| Requests.AllowIsExact | crates/meshlake-controller/src/main.rs:609-659 | when route authorization succeeds, and that it changes one member's allowed routes and dates |
| Requests.WrongTokenChangesNothing | crates/meshlake-controller/src/main.rs:1294-1305 | an administrative request with a wrong token changes nothing |
| Requests.OnlyTheAdministrator | crates/meshlake-controller/src/main.rs:1294-1305 | **Main.** without the administrator token no run creates or deletes a network, issues a token, changes a policy or a key, or removes a member: devices can join, nothing else |
| Requests.AnswersAreRecorded | crates/meshlake-controller/src/main.rs:485-829 | every certificate in an answer is recorded as handed out, so the theorems about revocation are about it |
| TrafficKeys.AnswerCarriesCurrentKey | crates/meshlake-controller/src/main.rs:485-829 | every enrollment and refresh answer carries the current traffic key of its network |
| TrafficKeys.RemovalReplacesKey | crates/meshlake-controller/src/main.rs:696-699 | a removal puts the newly generated key in place |
| TrafficKeys.RemovalRetiresTheKey | crates/meshlake-controller/src/main.rs:661-704 | **Main.** when generated keys are new, no answer of a network after a removal, in any continuation of the run, carries a key handed out before it |
| RefreshCache.AdmissibleExactly | crates/meshlake-controller/src/main.rs:776-792 | **Main.** a refresh is admissible if and only if the network exists, the device is a member holding the certificate named, and the holder of its stored key signed this request, of version 1, within 120 s of the check |
| RefreshCache.AnsweredWasSigned | crates/meshlake-controller/src/main.rs:776-808 | in every run, whatever is answered was signed by the member it is answered for |
| RefreshCache.AnsweredExactly | crates/meshlake-controller/src/main.rs:793-808 | **Main.** a refresh is answered if and only if it is admissible and no admissible attempt, answered or not, presented its nonce in the last 300 seconds |
| RefreshCache.NeverAnsweredTwice | crates/meshlake-controller/src/main.rs:793-808 | no request is answered twice in any run in which no attempt waits longer than the given delay between check and stamp |
| RefreshCache.ReplaysRefusedIffPrompt | crates/meshlake-controller/src/main.rs:793-808 | **Main.** that delay bound is exact: replays are refused in every run over states satisfying the invariant if and only if the delay is at most 59 s and 1 ns |
| RefreshCache.LateRunAnswersTwice | crates/meshlake-controller/src/main.rs:793-808 | past the bound there is such a run, in a state satisfying the invariant, that answers one request twice |
| RefreshCache.LateReplayIsAnswered | crates/meshlake-controller/src/main.rs:793-808 | past the bound, a replay checked in time that obtains the lock late is answered again |
| RefreshCache.AdmissibleIsFresh | crates/meshlake-core/src/authorization.rs:327-339 | an admissible request was issued within 120 seconds of its check |
| StateFile.StepKeepsInv | crates/meshlake-core/src/state_protection.rs:468-597 | every file-system call, failure, crash, loss of power or restart keeps the protocol invariant |
| StateFile.CrashSafety | crates/meshlake-core/src/state_protection.rs:563-597 | **Main.** after any run, in whatever condition the directory comes back, the primary is a complete state no older than the last acknowledged one, or it is absent and the backup is such a state, or nothing was ever acknowledged |
| StateFile.VisibleNeverGoesBack | crates/meshlake-core/src/state_protection.rs:814-890 | short of a loss of power, what a restart would find never gets older |
| StateFile.AcknowledgedIsDurable | crates/meshlake-core/src/state_protection.rs:588-591 | **Main.** a write is acknowledged only when every way the directory may come back shows it as the primary |
| StateFile.OnlyWritesTouchThePrimary | crates/meshlake-core/src/state_protection.rs:892-1017 | starting and recovering never overwrite or remove a primary that is there |
| StateFile.BackupGoesBesidePrimary | crates/meshlake-core/src/state_protection.rs:526-549 | a backup is removed only beside a complete primary, which stays; the start-up cleanup removes it only beside the very state that passed decoding, migration and validation in this start |
| StateFile.CleanupFollowsValidation | crates/meshlake-controller/src/main.rs:384-390 | a start reaches its cleanup only from a passed validation or from storing what passed it |
| StateFile.UnixKeepsTheBackup | crates/meshlake-core/src/state_protection.rs:546-549 | on Unix only a recovery that verified what it installed removes a backup |
| StateFile.NothingIsTakenOnTrust | crates/meshlake-core/src/state_protection.rs:892-987 | whatever the directory looks like, recovery never installs over a primary and removes the backup only after reading back its bytes, and a start never goes past a primary that does not decode |
| StateFile.NothingIsReinitialized | crates/meshlake-controller/src/main.rs:343-383 | a start creates a new state only if no write was ever acknowledged and both files are absent |
| StateFile.RecoveryRestores | crates/meshlake-core/src/state_protection.rs:892-953 | a recovery without faults ends with the backup's bytes as the primary and no backup |
| StateFile.StartRestores | crates/meshlake-controller/src/main.rs:335-399 | **Main.** however it went down, a start without faults serves exactly the state that was visible |
| StateStore.StateStore.WriteState | crates/meshlake-core/src/state_protection.rs:563-597 | **Main.** whichever calls fail, no directory the disk may come back with has lost the last acknowledged state; success if and only if no call that matters fails, and then all show the new state and the directory is exactly the one the platform leaves |
| StateStore.StateStore.ReplaceWindows | crates/meshlake-core/src/state_protection.rs:823-890 | the Windows replacement follows the protocol step by step, with its early exits |
| StateStore.StateStore.RecoverState | crates/meshlake-core/src/state_protection.rs:468-515 | a present primary is left alone; success if and only if there is nothing to do or the backup passes the size and validation test and no call fails, and it leaves the backup's bytes as the primary; whatever fails, a start finds the same state |
| Registration.VerifyMembership | crates/meshlake-core/src/root.rs:248-305 | passes if and only if the device signed this payload recently for this service and every certificate is its own and trusted; a target mismatch is reported exactly for known versions |
| Registration.IndexCertificates | crates/meshlake-core/src/root.rs:313-321 | the map has one certificate per network, or the list has a duplicate |
| Registration.CountingCovers | crates/meshlake-core/src/root.rs:307-345 | given unique networks and covering manifests, equal counts hold if and only if every certificate is covered |
| Registration.VerifyAuthorizationSet | crates/meshlake-core/src/root.rs:307-345 | **Main.** passes if and only if networks are unique on both sides, every manifest covers a certificate and, if required, every certificate is covered; each error is tied to its cause |
| Registration.VerifyAuthorized | crates/meshlake-core/src/root.rs:352-365 | passes if and only if the registration is authorized without a target |
| Registration.VerifyAuthorizedForService | crates/meshlake-core/src/root.rs:367-385 | passes if and only if the registration is authorized for this service, which its payload names |
| Registration.OneToOne | crates/meshlake-core/src/root.rs:307-345 | **Main.** in an accepted registration certificates and manifests correspond one to one by network, each covered by its own |
| Registration.AcceptedIsSigned | crates/meshlake-core/src/root.rs:248-345 | **Main.** the controller key of every accepted certificate is a trusted one and signed both the certificate and the payload of its manifest, which is live and lists it as active and unrevoked |
| Registration.AcceptedOnlyByItsTarget | crates/meshlake-core/src/root.rs:194-231 | **Main.** a registration signed for a service is accepted by that service alone, and there exactly when time, memberships and authorization hold |
| Registration.TargetIsSigned | crates/meshlake-core/src/root.rs:388-404 | whatever a service accepts, the holder of the device key signed for that very service |
| ServiceIdentity.OnlyTheRequiredListVerifies | crates/meshlake-core/src/service_identity.rs:337-372 | **Main.** signatures verify if and only if they are the required keys' signatures over the message, one each, in order |
| ServiceIdentity.RequiredIsExact | crates/meshlake-core/src/service_identity.rs:295-335 | for any policy, which keys are required and which policies are refused |
| ServiceIdentity.RotationRequires | crates/meshlake-core/src/service_identity.rs:295-335 | a proper rotation requires the old key before the window, both inside, and fails after it |
| ServiceIdentity.RotationVerifiesIff | crates/meshlake-core/src/service_identity.rs:295-372 | what was signed with the keys of one instant verifies at another up to the window end if and only if both lie on the same side of the window start |
| ServiceIdentity.RevokedKeyNeverVerifies | crates/meshlake-core/src/service_identity.rs:343-349 | a list carrying a revoked key verifies at no time |
| ServiceIdentity.SuccessorRefusesTheOldKey | crates/meshlake-core/src/service_identity.rs:295-372 | a successor policy that revokes the old key accepts exactly the new key's one signature |
| RelayAck.AckIsExact | crates/meshlake-core/src/relay.rs:143-187 | **Main.** any acknowledgement is accepted if and only if version, transaction, relay, lifetime and receiver fit and its signatures are the required keys' over the whole payload, in order |
| RelayAck.UnusableReceivers | crates/meshlake-core/src/relay.rs:173-179 | which receivers are refused, as ranges |
| RelayAck.AckVerifiesIff | crates/meshlake-core/src/relay.rs:105-187 | **Main.** through a rotation an acknowledgement is accepted exactly for its network, device, relay and nonce, in its lifetime of at most 30 s, up to the window end, on the same side of the window start as its signing |
| RelayAck.RefusedAcrossTheWindowStart | crates/meshlake-core/src/relay.rs:143-187 | **Main.** a concrete acknowledgement with the one key required before the window is refused a second later, fresh and inside the window |
| RelayAck.RevokedKeyNeverAccepted | crates/meshlake-core/src/relay.rs:143-187 | nothing that carries a revoked key is accepted at any time |
| Base64.DecodeEncode | crates/meshlake-cli/src/main.rs:1516-1520 | decoding undoes encoding, and encoding uses only the characters the reader accepts |
| Base64.EncodeDecode | crates/meshlake-cli/src/main.rs:1470-1474 | strict decoding accepts only what encoding prints |
| Base64.SymbolsFollowTheTable | crates/meshlake-cli/src/main.rs:1516-1516 | the standard alphabet in its order |
| Base64.GroupIsNumber | crates/meshlake-cli/src/main.rs:1516-1516 | a full group of characters and its bytes are the same 24-bit number |
| Lexicographic.LexIsExact | crates/meshlake-cli/src/main.rs:1497-1498 | certificates are ordered byte by byte: a prefix first, else the smaller where they first differ |
| PemBundle.ReadPrinted | crates/meshlake-cli/src/main.rs:1447-1528 | reading a printed bundle gives its certificates back, or the length error |
| PemLayouts.LayoutReads | crates/meshlake-cli/src/main.rs:1453-1494 | every layout of a list of certificates (Base64 cut anywhere, blanks around lines, blank lines, LF or CRLF, last line feed or not) is read as that list, within the limit |
| PemLayouts.ReadIsExact | crates/meshlake-cli/src/main.rs:1447-1494 | **Main.** a text is read as a list if and only if it is a layout of that list, not empty and within 64 KiB |
| PemLayouts.PrintedBlock | crates/meshlake-cli/src/main.rs:1513-1523 | a printed block is the markers around the Base64 text in lines of 64, the last one shorter |
| PemLayouts.NormalizeByLayout | crates/meshlake-cli/src/main.rs:1447-1561 | **Main.** two layouts of two lists have the same normal form, and are accepted together, if and only if the lists hold the same certificates |
| PemBundle.NormalizeIdempotent | crates/meshlake-cli/src/main.rs:1447-1528 | **Main.** normalizing a result again gives that result if and only if it is within 64 KiB, and the length error otherwise |
| PemBundle.NormalizeBySet | crates/meshlake-cli/src/main.rs:1447-1528 | **Main.** two bundles have the same normal form if and only if what is read from them is the same set of certificates |
| PemBundle.SelectIffSameSet | crates/meshlake-cli/src/main.rs:1545-1561 | **Main.** two bundles are accepted together if and only if they hold the same set of certificates, and then either gives the same bundle |
| PemBundle.NormalizeTlsCaPem | crates/meshlake-cli/src/main.rs:1447-1528 | the loop over lines and the printing loops compute the normalizer, every error included |
| PemBundle.PrintBlock | crates/meshlake-cli/src/main.rs:1513-1523 | the chunk loop prints one block in lines of 64 |
| PolicyEditing.GuiPolicyUpdate | crates/meshlake-gui/src/controller_exit.rs:6-54 | the loop over the manifest gives the command line's edit, except that it refuses a candidate for neither protocol |
| PolicyEditing.EditableIsStored | crates/meshlake-cli/src/controller_admin.rs:232-259 | what an editor reads back from a signed manifest is exactly what the network stores |
| PolicyEditing.ResubmittingOnlyRaisesTheEpoch | crates/meshlake-controller/src/main.rs:729-770 | **Main.** submitting an unmodified editable policy succeeds and changes the policy epoch alone |
| PolicyEditing.EditOutcome | crates/meshlake-cli/src/main.rs:1131-1149 | **Main.** setting or clearing a candidate is accepted if and only if it is a certified member with a protocol and there is room, changes exactly that device's entry and the epoch, and refused changes nothing |
| PolicyEditing.EditorsAgree | crates/meshlake-gui/src/controller_exit.rs:6-54 | **Main.** command line and graphical editor leave the controller in the same state for every input |

## Left out

- Controllers.Controller.Enroll: encoding and random-source failures, disk-write failures after memory was changed and the TURN credential are not modelled; the state file's own failures are, separately.
- Controllers.Controller.IssueToken: does not build the invite link, which lives mostly in a URL library.
- Controllers.Controller.RefreshMembership: does not carry the TURN credential.
- Handshake.HandshakeAgrees: takes the random session id and ephemeral secrets as arguments.
- StateFile.CrashSafety: one process holds the lock, so outside writers, permissions, links and reparse points are not modelled; leftover temporary files are never read again and are not tracked.
- StateStore.StateStore.RecoverState: the size limit and the caller's validation of a backup are one test, a parameter; contents are compared as abstract values.
- PemBundle.NormalizeTlsCaPem: the TLS library's test of a bundle of X.509 certificates is a parameter.
- PolicyEditing.EditorsAgree: one editor at a time; two concurrent editors can overwrite each other because no epoch is compared.
- Policy.VerifyIsExact: signatures or keys of a wrong length are junk values that never verify, so their separate error codes are not told apart.
- Real cryptography, JSON, HTTP handlers, TLS listeners, command-line parsing and the rest of the graphical interface.
- Planet manifests in five versions, overlay, exit gateway, kill switch, systemd units, session observation and redaction: they would only add easy members.
- The agent's data plane and the root and relay servers themselves.
