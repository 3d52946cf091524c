/** The nonce cache that keeps a membership refresh from being answered twice.

Several refreshes can be under way at once: each is verified first, and only then waits for
the lock around the cache.  A run lists attempts in the order in which they obtain the lock.
*/
module RefreshCache {
  import opened Wrappers
  import opened Bytes
  import opened Cidr
  import opened Crypto
  import opened Authorization
  import opened ControllerModel
  import opened Domains
  import opened NormalPolicies
  import opened NetworkInvariants
  import opened ControllerRuns
  import opened ExampleNetworks

  /** Nanoseconds. */
  const SECOND: nat := 1_000_000_000

  const RETENTION: nat := 300 * SECOND

  /** An instant whose whole seconds the controller's clock can show. */
  type Instant = n: nat | n / SECOND + DAY <= U64_MAX witness 0

  /** A request with the state it is checked against, and the instants of the check, of the
      purge of old nonces and of the stamp. */
  datatype Attempt = Attempt(
    state: ControllerState, request: RefreshRequest, checkedAt: Instant, purgedAt: nat, stampedAt: nat)

  predicate Admissible(a: Attempt) {
    RefreshAdmissible(a.state, a.request, a.checkedAt / SECOND).Pass?
  }

  function Nonce(a: Attempt): Bytes16 {
    a.request.payload.nonce
  }

  type Cache = map<Bytes16, nat>

  function Purged(cache: Cache, now: nat): Cache {
    map x | x in cache && now <= cache[x] + RETENTION :: cache[x]
  }

  /** An admissible request stamps its nonce even when it is refused as a replay. */
  function Stamped(cache: Cache, a: Attempt): Cache {
    if Admissible(a) then Purged(cache, a.purgedAt)[Nonce(a) := a.stampedAt] else cache
  }

  predicate Answered(cache: Cache, a: Attempt) {
    Admissible(a) && Nonce(a) !in Purged(cache, a.purgedAt)
  }

  function CacheAfter(attempts: seq<Attempt>): Cache {
    if attempts == [] then map[]
    else Stamped(CacheAfter(attempts[..|attempts| - 1]), attempts[|attempts| - 1])
  }

  /** Whether the `k`-th attempt of a run is answered. */
  predicate AnsweredIn(attempts: seq<Attempt>, k: nat)
    requires k < |attempts|
  {
    Answered(CacheAfter(attempts[..k]), attempts[k])
  }

  /** Attempts go through the lock one after another. */
  ghost predicate Serialized(attempts: seq<Attempt>) {
    && (forall i :: 0 <= i < |attempts| ==> attempts[i].checkedAt <= attempts[i].purgedAt <= attempts[i].stampedAt)
    && (forall i, j :: 0 <= i < j < |attempts| ==> attempts[i].stampedAt <= attempts[j].purgedAt)
  }

  // ----- What the cache remembers

  ghost predicate StampOf(attempts: seq<Attempt>, x: Bytes16, stamp: nat) {
    exists i :: 0 <= i < |attempts| && Admissible(attempts[i]) && Nonce(attempts[i]) == x
        && attempts[i].stampedAt == stamp
  }

  ghost predicate Remembered(cache: Cache, a: Attempt, now: nat) {
    || (Nonce(a) in cache && a.stampedAt <= cache[Nonce(a)])
    || now > a.stampedAt + RETENTION
  }

  /** The cache holds stamps of the run. */
  lemma {:induction false} StampsAreReal(attempts: seq<Attempt>)
    ensures forall x :: x in CacheAfter(attempts) ==> StampOf(attempts, x, CacheAfter(attempts)[x])
  {
    if attempts == [] {
    } else {
      hide Admissible;
      var k := |attempts| - 1;
      var (front, last) := (attempts[..k], attempts[k]);
      StampsAreReal(front);
      var (before, after) := (CacheAfter(front), CacheAfter(attempts));
      forall x | x in after ensures StampOf(attempts, x, after[x]) {
        if Admissible(last) && x == Nonce(last) {
          assert attempts[k].stampedAt == after[x];
        } else {
          assert x in before && after[x] == before[x];
          assert StampOf(front, x, before[x]);
          assert forall i :: 0 <= i < k ==> front[i] == attempts[i];
        }
      }
    }
  }

  /** The cache forgets only what is past retention by `now`. */
  lemma {:induction false} CacheRemembers(attempts: seq<Attempt>, now: nat)
    requires Serialized(attempts)
    requires forall i :: 0 <= i < |attempts| ==> attempts[i].stampedAt <= now
    ensures forall i :: 0 <= i < |attempts| && Admissible(attempts[i]) ==>
              Remembered(CacheAfter(attempts), attempts[i], now)
  {
    if attempts == [] {
    } else {
      hide Admissible;
      var k := |attempts| - 1;
      var (front, last) := (attempts[..k], attempts[k]);
      assert forall i :: 0 <= i < k ==> front[i] == attempts[i];
      CacheRemembers(front, last.purgedAt);
      var (before, after) := (CacheAfter(front), CacheAfter(attempts));
      forall i | 0 <= i < |attempts| && Admissible(attempts[i]) ensures Remembered(after, attempts[i], now) {
        if i < k {
          assert Admissible(front[i]) && Remembered(before, front[i], last.purgedAt);
          assert attempts[i].stampedAt <= last.purgedAt;
        }
      }
    }
  }

  /** Exactly which attempts are answered: the admissible ones whose nonce nobody presented
      admissibly within the retention time, whether that was answered or refused. */
  lemma AnsweredExactly(attempts: seq<Attempt>, k: nat)
    requires Serialized(attempts) && k < |attempts|
    ensures AnsweredIn(attempts, k) <==>
              && Admissible(attempts[k])
              && forall i :: 0 <= i < k && Admissible(attempts[i]) && Nonce(attempts[i]) == Nonce(attempts[k]) ==>
                   attempts[k].purgedAt > attempts[i].stampedAt + RETENTION
  {
    hide Admissible;
    var (front, a) := (attempts[..k], attempts[k]);
    assert forall i :: 0 <= i < k ==> front[i] == attempts[i];
    StampsAreReal(front);
    CacheRemembers(front, a.purgedAt);
    var cache := CacheAfter(front);
    if Admissible(a) && Nonce(a) in Purged(cache, a.purgedAt) {
      assert StampOf(front, Nonce(a), cache[Nonce(a)]);
    }
    if AnsweredIn(attempts, k) {
      forall i | 0 <= i < k && Admissible(attempts[i]) && Nonce(attempts[i]) == Nonce(a)
        ensures a.purgedAt > attempts[i].stampedAt + RETENTION
      {
        assert Admissible(front[i]) && Remembered(cache, front[i], a.purgedAt);
      }
    }
  }

  // ----- No request is answered twice

  ghost predicate AnswersTwice(attempts: seq<Attempt>) {
    exists i, j :: 0 <= i < j < |attempts| && attempts[i].request == attempts[j].request
                   && AnsweredIn(attempts, i) && AnsweredIn(attempts, j)
  }

  /** No attempt waits longer than `delay` between its check and its stamp. */
  ghost predicate Prompt(attempts: seq<Attempt>, delay: nat) {
    forall i :: 0 <= i < |attempts| ==> attempts[i].stampedAt <= attempts[i].checkedAt + delay
  }

  const MAX_DELAY: nat := 59 * SECOND + 1

  /** Admissibility exactly: the network exists, the device is a member of it and holds the
      certificate named, and the holder of the device key stored for it signed this request, of this
      version, within 120 seconds of the check. */
  lemma AdmissibleExactly(a: Attempt)
    ensures Admissible(a) <==>
              var p := a.request.payload;
              && p.networkId in a.state.networks
              && var n := a.state.networks[p.networkId];
              && p.deviceId in n.members && p.deviceId in n.certificateIds
              && p.certificateId == n.certificateIds[p.deviceId]
              && p.version == 1
              && a.checkedAt / SECOND <= p.issuedAt + 120 && p.issuedAt <= a.checkedAt / SECOND + 120
              && var k := n.members[p.deviceId].devicePublicKey;
              k.Ed25519? && a.request.signature == SignedBy(SigningKey(k.seed), p)
  {
    var p := a.request.payload;
    if p.networkId in a.state.networks && p.deviceId in a.state.networks[p.networkId].members {
      var k := a.state.networks[p.networkId].members[p.deviceId].devicePublicKey;
      RefreshVerifiesExactly(a.request, k, a.checkedAt / SECOND, 120);
    }
  }

  /** In every run, whatever is answered was signed by the member it is answered for, over this
      very request, with the key stored for it at the time. */
  lemma AnsweredWasSigned(attempts: seq<Attempt>, k: nat)
    requires k < |attempts| && AnsweredIn(attempts, k)
    ensures var (s, r) := (attempts[k].state, attempts[k].request);
            && r.payload.networkId in s.networks && HasCertificate(s.networks[r.payload.networkId], r.payload.deviceId)
            && var n := s.networks[r.payload.networkId];
            && r.payload.certificateId == n.certificateIds[r.payload.deviceId]
            && n.members[r.payload.deviceId].devicePublicKey.Ed25519?
            && r.signature == SignedBy(SigningKey(n.members[r.payload.deviceId].devicePublicKey.seed), r.payload)
  {
    AdmissibleExactly(attempts[k]);
  }

  /** An admissible request was issued at most 120 seconds before or after its check. */
  lemma AdmissibleIsFresh(a: Attempt)
    requires Admissible(a)
    ensures AbsDiff(a.checkedAt / SECOND, a.request.payload.issuedAt) <= 120
  {
    AdmissibleExactly(a);
  }

  /** The freshness test bounds a replay to 240 seconds, within what the cache remembers. */
  lemma NeverAnsweredTwice(attempts: seq<Attempt>, delay: nat)
    requires Serialized(attempts) && Prompt(attempts, delay) && delay <= MAX_DELAY
    ensures !AnswersTwice(attempts)
  {
    hide Admissible;
    forall i, j | 0 <= i < j < |attempts| && attempts[i].request == attempts[j].request
                  && AnsweredIn(attempts, i) && AnsweredIn(attempts, j)
      ensures false
    {
      AnsweredExactly(attempts, i);
      AnsweredExactly(attempts, j);
      AdmissibleIsFresh(attempts[i]);
      AdmissibleIsFresh(attempts[j]);
    }
  }

  /** The bound on the delay is exact: past it, a replay that is checked in time but obtains
      the lock late is answered again. */
  lemma LateReplayIsAnswered(s: ControllerState, r: RefreshRequest,
                             delay: nat) returns (attempts: seq<Attempt>)
    requires delay > MAX_DELAY && r.payload.issuedAt == 120
    requires RefreshAdmissible(s, r, 0).Pass? && RefreshAdmissible(s, r, 240).Pass?
    ensures Serialized(attempts) && Prompt(attempts, delay) && AnswersTwice(attempts)
    ensures forall i :: 0 <= i < |attempts| ==> attempts[i].state == s
  {
    var late: nat := 241 * SECOND - 1;
    attempts := [Attempt(s, r, 0, 0, 0), Attempt(s, r, late, RETENTION + 1, RETENTION + 1)];
    assert 0 / SECOND == 0 && late / SECOND == 240;
    AnsweredExactly(attempts, 0);
    AnsweredExactly(attempts, 1);
  }

  /** A controller with one network and one member. */
  function OneMember(home: IpNet, address: IpAddr, device: SigningKey): ControllerState {
    ControllerState(SigningKey(0), "token",
                    map[NETWORK := Lone(home, address, VerifyingKey(device), [], EMPTY_POLICY)], map[])
  }

  /** A request of that member, issued at 120. */
  function ItsRequest(device: SigningKey): RefreshRequest {
    var payload := RefreshPayload(1, NETWORK, 1, 3, 120, seq(16, _ => 0));
    RefreshRequest(payload, Sign(device, payload))
  }

  /** It is a state a controller can be in and start from. */
  lemma OneMemberIsReal(home: IpNet, address: IpAddr, device: SigningKey)
    requires V4Host(home, address)
    ensures NetworksInv(OneMember(home, address, device), {3}) && Trim(OneMember(home, address, device).adminToken) != ""
  {
    EmptyIsNormal();
    LoneInv(home, address, VerifyingKey(device), [], EMPTY_POLICY, {3});
    hide NetworkInv, V4Host, Lone;
  }

  lemma ItsRequestIsAdmissible(home: IpNet, address: IpAddr, device: SigningKey, now: Clock)
    requires now <= 240
    ensures RefreshAdmissible(OneMember(home, address, device), ItsRequest(device), now).Pass?
  {
  }

  /** Every attempt finds the controller in a state its networks' invariant allows. */
  ghost predicate Real(attempts: seq<Attempt>) {
    forall i :: 0 <= i < |attempts| ==> RealState(attempts[i].state)
  }

  ghost predicate RealState(s: ControllerState) {
    exists issued :: NetworksInv(s, issued)
  }

  /** Past the bound there is a run, in a state a controller can be in, that answers twice. */
  lemma LateRunAnswersTwice(delay: nat) returns (attempts: seq<Attempt>)
    requires delay > MAX_DELAY
    ensures Serialized(attempts) && Real(attempts) && Prompt(attempts, delay) && AnswersTwice(attempts)
  {
    hide Serialized, AnswersTwice, Prompt, RefreshAdmissible, NetworksInv, OneMember, Home, V4Host;
    var device := SigningKey(5);
    var s := OneMember(Home(), HomeAddress(1), device);
    OneMemberIsReal(Home(), HomeAddress(1), device);
    ItsRequestIsAdmissible(Home(), HomeAddress(1), device, 0);
    ItsRequestIsAdmissible(Home(), HomeAddress(1), device, 240);
    attempts := LateReplayIsAnswered(s, ItsRequest(device), delay);
    assert RealState(s);
  }

  /** Replays are refused in every run exactly when no attempt is delayed by more than
      `MAX_DELAY` between its check and its stamp. */
  lemma ReplaysRefusedIffPrompt(delay: nat)
    ensures (forall attempts :: Serialized(attempts) && Real(attempts) && Prompt(attempts, delay) ==>
               !AnswersTwice(attempts)) <==> delay <= MAX_DELAY
  {
    hide Serialized, AnswersTwice, Prompt, Real;
    if delay <= MAX_DELAY {
      forall attempts | Serialized(attempts) && Real(attempts) && Prompt(attempts, delay)
        ensures !AnswersTwice(attempts)
      {
        NeverAnsweredTwice(attempts, delay);
      }
    } else {
      var attempts := LateRunAnswersTwice(delay);
    }
  }
}
