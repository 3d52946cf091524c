/** Loading a stored controller state: migration, validation, and what a restart does. */
module Restart {
  import opened Wrappers
  import opened Bytes
  import opened Cidr
  import opened Crypto
  import opened Domains
  import opened ControllerModel
  import opened Signability
  import opened NetworkInvariants
  import opened ControllerRuns
  import opened SignableSteps
  import opened ExampleNetworks
  import opened Controllers
  import Requests

  const SCHEMA_VERSION: nat := 2

  /** What the state file holds. */
  datatype Stored = Stored(schemaVersion: nat, state: ControllerState)

  /** The identifiers drawn for members that have none, and the keys generated for networks
      whose key has the wrong length. */
  datatype Draws = Draws(id: (Uuid, Uuid) -> Uuid, key: Uuid -> NetworkKey)

  predicate BadKey(n: ManagedNetwork) {
    |n.networkKey| != 32
  }

  function AtLeastOne(epoch: U64): (r: U64)
    ensures r >= 1 && (epoch >= 1 ==> r == epoch)
  {
    if epoch == 0 then 1 else epoch
  }

  function CompletedIds(id: Uuid, n: ManagedNetwork, draws: Draws): map<Uuid, Uuid> {
    map d | d in n.certificateIds.Keys + n.members.Keys ::
      if d in n.certificateIds then n.certificateIds[d] else draws.id(id, d)
  }

  function Migrated(id: Uuid, n: ManagedNetwork, draws: Draws): ManagedNetwork {
    n.(networkKey := if BadKey(n) then draws.key(id) else n.networkKey,
       networkKeyEpoch := AtLeastOne(n.networkKeyEpoch),
       authorizationEpoch := AtLeastOne(n.authorizationEpoch),
       policyEpoch := AtLeastOne(n.policyEpoch),
       certificateIds := CompletedIds(id, n, draws))
  }

  function MigratedAll(s: ControllerState, draws: Draws): ControllerState {
    s.(networks := map id | id in s.networks :: Migrated(id, s.networks[id], draws))
  }

  predicate Validates(s: ControllerState, now: Clock) {
    && Trim(s.adminToken) != ""
    && forall id :: id in s.networks ==> !BadKey(s.networks[id]) && SignPolicy(s.networks[id], s.signingKey, now).Ok?
  }

  /** Only an older schema may hold a key of the wrong length. */
  predicate Migratable(stored: Stored) {
    && stored.schemaVersion <= SCHEMA_VERSION
    && (stored.schemaVersion == SCHEMA_VERSION ==>
          forall id :: id in stored.state.networks ==> !BadKey(stored.state.networks[id]))
  }

  /** The state a start loads and whether it has to be stored again, or nothing when the start
      is refused. */
  function Restarted(stored: Stored, draws: Draws, now: Clock): Option<(Stored, bool)> {
    var loaded := Stored(SCHEMA_VERSION, MigratedAll(stored.state, draws));
    if Migratable(stored) && Validates(loaded.state, now) then Some((loaded, loaded != stored)) else None
  }

  /** What migration leaves behind, exactly: keys of 32 bytes, epochs of at least 1 and an identifier
      for every member, with everything that was in order kept and everything else untouched;
      migrating again changes nothing. */
  lemma MigrationIsExact(id: Uuid, n: ManagedNetwork, draws: Draws)
    ensures var m := Migrated(id, n, draws);
            && |m.networkKey| == 32 && (|n.networkKey| == 32 ==> m.networkKey == n.networkKey)
            && (|n.networkKey| != 32 ==> m.networkKey == draws.key(id))
            && m.networkKeyEpoch == (if n.networkKeyEpoch == 0 then 1 else n.networkKeyEpoch)
            && m.authorizationEpoch == (if n.authorizationEpoch == 0 then 1 else n.authorizationEpoch)
            && m.policyEpoch == (if n.policyEpoch == 0 then 1 else n.policyEpoch)
            && (forall d :: d in n.members ==> d in m.certificateIds)
            && (forall d :: d in m.certificateIds ==> d in n.certificateIds || d in n.members)
            && (forall d :: d in n.certificateIds ==> d in m.certificateIds && m.certificateIds[d] == n.certificateIds[d])
            && (forall d :: d in n.members && d !in n.certificateIds ==> m.certificateIds[d] == draws.id(id, d))
            && m.network == n.network && m.members == n.members && m.revoked == n.revoked && m.policy == n.policy
            && Migrated(id, m, draws) == m
  {
    var m := Migrated(id, n, draws);
    assert CompletedIds(id, m, draws) == m.certificateIds;
  }

  /** When a start succeeds, exactly: a schema not newer than this one, keys of the right length
      unless the schema is older, a token that is not blank, and every migrated policy signable. */
  lemma RestartedExactly(stored: Stored, draws: Draws, now: Clock)
    requires forall id :: id in stored.state.networks ==> WellKeyed(stored.state.networks[id])
    ensures Restarted(stored, draws, now).Some? <==>
              && stored.schemaVersion <= 2
              && (stored.schemaVersion == 2 ==>
                    forall id :: id in stored.state.networks ==> |stored.state.networks[id].networkKey| == 32)
              && (exists i :: 0 <= i < |stored.state.adminToken| && !IsWhitespace(stored.state.adminToken[i]))
              && (forall id :: id in stored.state.networks ==> Signable(Migrated(id, stored.state.networks[id], draws)))
    ensures Restarted(stored, draws, now).Some? ==>
              var (loaded, changed) := Restarted(stored, draws, now).value;
              && loaded.schemaVersion == 2 && (changed <==> loaded != stored)
              && loaded.state == stored.state.(networks := loaded.state.networks)
              && loaded.state.networks.Keys == stored.state.networks.Keys
              && forall id :: id in loaded.state.networks ==>
                   loaded.state.networks[id] == Migrated(id, stored.state.networks[id], draws)
  {
    hide SignPolicy, Signable, Migrated, Trim, IsWhitespace;
    var s := stored.state;
    Requests.BlankTrimsToNothing(s.adminToken);
    forall id | id in s.networks
      ensures !BadKey(Migrated(id, s.networks[id], draws))
      ensures SignPolicy(Migrated(id, s.networks[id], draws), s.signingKey, now).Ok? <==>
              Signable(Migrated(id, s.networks[id], draws))
    {
      MigratedWellKeyed(id, s.networks[id], draws);
      MigrationIsExact(id, s.networks[id], draws);
      SignPolicyIsExact(Migrated(id, s.networks[id], draws), s.signingKey, now);
    }
    var s' := MigratedAll(s, draws);
    assert s'.networks.Keys == s.networks.Keys;
    assert forall id :: id in s.networks ==> s'.networks[id] == Migrated(id, s.networks[id], draws);
    assert Validates(s', now) <==>
           && Trim(s.adminToken) != ""
           && forall id :: id in s.networks ==> Signable(Migrated(id, s.networks[id], draws)) by {
      if forall id :: id in s.networks ==> Signable(Migrated(id, s.networks[id], draws)) {
        assert forall id :: id in s'.networks ==>
            !BadKey(s'.networks[id]) && SignPolicy(s'.networks[id], s.signingKey, now).Ok?;
      }
      if Validates(s', now) {
        forall id | id in s.networks ensures Signable(Migrated(id, s.networks[id], draws)) {
          assert id in s'.networks;
        }
      }
    }
  }

  lemma MigratedWellKeyed(id: Uuid, n: ManagedNetwork, draws: Draws)
    requires WellKeyed(n)
    ensures WellKeyed(Migrated(id, n, draws))
  {
  }

  // ----- The loops

  method MigrateNetwork(id: Uuid, n: ManagedNetwork, draws: Draws) returns (m: ManagedNetwork, changed: bool)
    ensures m == Migrated(id, n, draws) && (changed <==> m != n)
  {
    m, changed := n, false;
    if |m.networkKey| != 32 {
      m, changed := m.(networkKey := draws.key(id)), true;
    }
    if m.networkKeyEpoch == 0 {
      m, changed := m.(networkKeyEpoch := 1), true;
    }
    if m.authorizationEpoch == 0 {
      m, changed := m.(authorizationEpoch := 1), true;
    }
    if m.policyEpoch == 0 {
      m, changed := m.(policyEpoch := 1), true;
    }
    var ids, added := CompleteIds(id, n, draws);
    m, changed := m.(certificateIds := ids), changed || added;
  }

  method CompleteIds(id: Uuid, n: ManagedNetwork, draws: Draws) returns (ids: map<Uuid, Uuid>, added: bool)
    ensures ids == CompletedIds(id, n, draws) && (added <==> ids != n.certificateIds)
  {
    hide Enumerate;
    var devices := Enumerate(n.members.Keys);
    ids, added := n.certificateIds, false;
    ghost var first: Uuid := 0;
    for k := 0 to |devices|
      invariant forall d :: d in ids <==> d in n.certificateIds || d in devices[..k]
      invariant forall d :: d in ids ==> ids[d] == if d in n.certificateIds then n.certificateIds[d] else draws.id(id, d)
      invariant if added then first in ids && first !in n.certificateIds else ids == n.certificateIds
    {
      var d := devices[k];
      assert devices[..k + 1] == devices[..k] + [d];
      if d !in ids {
        ids, added, first := ids[d := draws.id(id, d)], true, d;
      }
    }
    assert devices[..|devices|] == devices;
    assert ids.Keys == n.certificateIds.Keys + n.members.Keys;
  }

  /** The loop of the migration: nothing when a network of the current schema has a bad key. */
  method MigrateNetworks(stored: Stored, draws: Draws) returns (r: Option<(ControllerState, bool)>)
    requires stored.schemaVersion <= SCHEMA_VERSION
    ensures r.Some? <==> Migratable(stored)
    ensures r.Some? ==> r.value.0 == MigratedAll(stored.state, draws) && (r.value.1 <==> r.value.0 != stored.state)
  {
    hide Migrated, Enumerate;
    var s := stored.state;
    var ids := Enumerate(s.networks.Keys);
    var networks, migrated := s.networks, false;
    for k := 0 to |ids|
      invariant networks.Keys == s.networks.Keys
      invariant forall id :: id in networks ==>
                  networks[id] == if id in ids[..k] then Migrated(id, s.networks[id], draws) else s.networks[id]
      invariant migrated <==> networks != s.networks
      invariant forall id :: id in ids[..k] && stored.schemaVersion == SCHEMA_VERSION ==> !BadKey(s.networks[id])
    {
      var id := ids[k];
      assert ids[..k + 1] == ids[..k] + [id];
      assert id !in ids[..k];
      if |networks[id].networkKey| != 32 && stored.schemaVersion >= SCHEMA_VERSION {
        assert BadKey(s.networks[id]);
        return None;
      }
      var m, changed := MigrateNetwork(id, networks[id], draws);
      ghost var before := networks;
      networks, migrated := networks[id := m], migrated || changed;
      assert networks != s.networks <==> migrated by {
        if before != s.networks {
          StillDiffers(before, s.networks, id, m);
        }
      }
    }
    assert ids[..|ids|] == ids;
    return Some((s.(networks := networks), migrated));
  }

  /** `validate_controller_state` */
  method ValidateState(s: ControllerState, now: Clock) returns (ok: bool)
    ensures ok <==> Validates(s, now)
  {
    hide SignPolicy, Enumerate;
    if Trim(s.adminToken) == "" {
      return false;
    }
    var ids := Enumerate(s.networks.Keys);
    for k := 0 to |ids|
      invariant forall i :: 0 <= i < k ==>
                  !BadKey(s.networks[ids[i]]) && SignPolicy(s.networks[ids[i]], s.signingKey, now).Ok?
    {
      if |s.networks[ids[k]].networkKey| != 32 {
        return false;
      }
      var signed := SignNetworkPolicy(s.networks[ids[k]], s.signingKey, now);
      if signed.Err? {
        return false;
      }
    }
    return true;
  }

  /** `migrate_and_validate_controller_state` */
  method MigrateAndValidate(stored: Stored, draws: Draws, now: Clock) returns (r: Option<(Stored, bool)>)
    ensures r == Restarted(stored, draws, now)
  {
    hide MigratedAll, Validates;
    if stored.schemaVersion > SCHEMA_VERSION {
      return None;
    }
    var migration := MigrateNetworks(stored, draws);
    if migration.None? {
      return None;
    }
    var (s, migrated) := migration.value;
    if stored.schemaVersion < SCHEMA_VERSION {
      migrated := true;
    }
    var valid := ValidateState(s, now);
    return if valid then Some((Stored(SCHEMA_VERSION, s), migrated)) else None;
  }

  lemma StillDiffers(a: map<Uuid, ManagedNetwork>, b: map<Uuid, ManagedNetwork>, id: Uuid,
                     m: ManagedNetwork)
    requires a.Keys == b.Keys && a != b && id in a && a[id] == b[id]
    ensures a[id := m] != b
  {
    assert exists x :: x in a && a[x] != b[x];
    var x :| x in a && a[x] != b[x];
    assert a[id := m][x] != b[x];
  }

  // ----- Restarting a controller that ran

  lemma NothingToMigrate(n: ManagedNetwork, id: Uuid, issued: set<Uuid>, draws: Draws)
    requires NetworkInv(n, id, issued)
    ensures Migrated(id, n, draws) == n && !BadKey(n)
  {
    assert CompletedIds(id, n, draws) == n.certificateIds;
  }

  lemma RestartOf(s: ControllerState, issued: set<Uuid>, draws: Draws, now: Clock)
    requires NetworksInv(s, issued) && Trim(s.adminToken) != ""
    ensures Restarted(Stored(SCHEMA_VERSION, s), draws, now) ==
              if AllSignable(s) then Some((Stored(SCHEMA_VERSION, s), false)) else None
  {
    hide NetworkInv, SignPolicy, Signable, Migrated, BadKey;
    forall id | id in s.networks
      ensures Migrated(id, s.networks[id], draws) == s.networks[id] && !BadKey(s.networks[id])
      ensures SignPolicy(s.networks[id], s.signingKey, now).Ok? <==> Signable(s.networks[id])
    {
      NothingToMigrate(s.networks[id], id, issued, draws);
      InvIsWellKeyed(s.networks[id], id, issued);
      SignPolicyIsExact(s.networks[id], s.signingKey, now);
    }
    assert MigratedAll(s, draws).networks == s.networks;
    assert MigratedAll(s, draws) == s;
  }

  /** A restart in any reachable state changes nothing and needs no rewriting, and it is
      refused exactly when some network's policy can no longer be signed. */
  lemma RestartIsExact(key: SigningKey, adminToken: string, events: seq<Event>, draws: Draws,
                       now: Clock)
    requires Runs(Initial(key, adminToken), events) && Trim(adminToken) != ""
    ensures var s := Run(Initial(key, adminToken), events).state;
            Restarted(Stored(SCHEMA_VERSION, s), draws, now) ==
              if AllSignable(s) then Some((Stored(SCHEMA_VERSION, s), false)) else None
  {
    RunKeepsNetworks(Initial(key, adminToken), events);
    RunKeepsToken(Initial(key, adminToken), events);
    var w := Run(Initial(key, adminToken), events);
    hide Run, Runs, Trim, NetworksInv, Restarted, AllSignable;
    RestartOf(w.state, w.issuedIds, draws, now);
  }

  lemma InvIsWellKeyed(n: ManagedNetwork, id: Uuid, issued: set<Uuid>)
    requires NetworkInv(n, id, issued)
    ensures WellKeyed(n)
  {
  }

  lemma NextKeepsToken(s: ControllerState, e: Event)
    ensures NextState(s, e).adminToken == s.adminToken && NextState(s, e).signingKey == s.signingKey
  {
    hide SignPolicy, AssignedAddresses, SignAuthorization, CertificateFor, CompactPolicy, ValidRequest, Removed,
         Enrolled, Reauthorized, Candidate, AllowedWith, RequestedRoutes, NewNetwork;
  }

  lemma {:induction false} RunKeepsToken(w: World, events: seq<Event>)
    ensures Run(w, events).state.adminToken == w.state.adminToken
    decreases events
  {
    hide NextState, Released;
    if events == [] {
    } else {
      NextKeepsToken(w.state, events[0]);
      RunKeepsToken(Next(w, events[0]), events[1..]);
    }
  }

  /** Without a harmful join, a controller always comes back with the state it had. */
  lemma HarmlessRunsRestart(key: SigningKey, adminToken: string, events: seq<Event>, draws: Draws,
                            now: Clock)
    requires Runs(Initial(key, adminToken), events) && HarmlessRun(Initial(key, adminToken), events)
    requires Trim(adminToken) != ""
    ensures var s := Run(Initial(key, adminToken), events).state;
            Restarted(Stored(SCHEMA_VERSION, s), draws, now) == Some((Stored(SCHEMA_VERSION, s), false))
  {
    RunKeepsSignable(Initial(key, adminToken), events);
    RestartIsExact(key, adminToken, events, draws, now);
    hide Run, Runs, HarmlessRun, Restarted, AllSignable;
  }

  /** A harmful join that goes through leaves a state from which the controller refuses to
      start. */
  lemma HarmfulJoinStopsTheNextStart(w: World, e: Event, id: Uuid, draws: Draws, now: Clock)
    requires NetworksInv(w.state, w.issuedIds) && CanHappen(w, e)
    requires id in w.state.networks && Signable(w.state.networks[id]) && HarmfulJoin(w.state.networks[id], id, e)
    requires id in NextState(w.state, e).networks && NextState(w.state, e).networks[id] != w.state.networks[id]
    ensures Restarted(Stored(SCHEMA_VERSION, NextState(w.state, e)), draws, now) == None
  {
    NextKeepsNetworks(w, e);
    var (n, s') := (w.state.networks[id], NextState(w.state, e));
    NextChange(w.state, e, id);
    hide NextState, Signable, HarmfulJoin, Change, SignPolicy, Migrated, NetworkInv;
    InvIsWellKeyed(n, id, w.issuedIds);
    ChangeSignable(n, s'.networks[id], id, e, w.state.signingKey);
    var issued := Next(w, e).issuedIds;
    NothingToMigrate(s'.networks[id], id, issued, draws);
    InvIsWellKeyed(s'.networks[id], id, issued);
    SignPolicyIsExact(s'.networks[id], s'.signingKey, now);
    assert MigratedAll(s', draws).networks[id] == s'.networks[id];
  }

  lemma JoinStep(s: ControllerState, e: Event)
    requires e.step.Join?
    ensures NextState(s, e) == Enroll(s, e.step.enrollment, e.now, e.freshId).0
  {
    hide Enroll;
  }

  lemma RejoinIsHarmful(home: IpNet, office: IpNet, address: IpAddr, key: PublicKey,
                        signingKey: SigningKey, adminToken: string, expiresAt: U64, e: Event)
    requires V4Host(home, address) && office.length > 0 && !NetCovers(home, office)
    requires !key.WrongLength? && e.now <= expiresAt && e.step == Join(Rejoin(key))
    ensures var s := GatewayState(home, office, address, key, signingKey, adminToken, expiresAt);
            && s.adminToken == adminToken && NETWORK in s.networks && NetworksInv(s, {3, 5})
            && AllSignable(s) && Signable(s.networks[NETWORK]) && HarmfulJoin(s.networks[NETWORK], NETWORK, e)
            && Enroll(s, Rejoin(key), e.now, e.freshId).1.Ok?
            && NETWORK in NextState(s, e).networks && NextState(s, e).networks[NETWORK] != s.networks[NETWORK]
  {
    var s := GatewayState(home, office, address, key, signingKey, adminToken, expiresAt);
    hide NetworksInv, Signable, Enrolled, Lone, RouteThrough, RoutesStayInside, NetCovers, V4Host, Enroll, NextState;
    RejoinGoesThrough(home, office, address, key, signingKey, adminToken, expiresAt, e.now, e.freshId);
    GatewaySignable(home, office, address, key);
    GatewayRoutesLeave(home, office, address, key);
    JoinStep(s, e);
  }

  /** The gateway of `SignableSteps.RejoinBreaksPolicy` enrolls again, is answered, and the
      controller refuses its next start, which it would not have before. */
  lemma RejoinStopsTheController(home: IpNet, office: IpNet, address: IpAddr, key: PublicKey,
                                 signingKey: SigningKey, adminToken: string, expiresAt: U64,
                                 e: Event, draws: Draws, t: Clock)
    requires V4Host(home, address) && office.length > 0 && !NetCovers(home, office) && Trim(adminToken) != ""
    requires !key.WrongLength? && e.now <= expiresAt && e.step == Join(Rejoin(key)) && e.freshId !in {3, 5, NIL_UUID}
    ensures var s := GatewayState(home, office, address, key, signingKey, adminToken, expiresAt);
            && NetworksInv(s, {3, 5})
            && Restarted(Stored(SCHEMA_VERSION, s), draws, t) == Some((Stored(SCHEMA_VERSION, s), false))
            && Enroll(s, Rejoin(key), e.now, e.freshId).1.Ok?
            && Restarted(Stored(SCHEMA_VERSION, NextState(s, e)), draws, t) == None
  {
    hide Restarted, NetworksInv, Signable, NetCovers, V4Host, Trim, Enroll, NextState, GatewayState, AllSignable,
         HarmfulJoin, Rejoin;
    var s := GatewayState(home, office, address, key, signingKey, adminToken, expiresAt);
    RejoinIsHarmful(home, office, address, key, signingKey, adminToken, expiresAt, e);
    RestartOf(s, {3, 5}, draws, t);
    HarmfulJoinStopsTheNextStart(World(s, {3, 5}, {}), e, NETWORK, draws, t);
  }
}
