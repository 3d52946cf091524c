/** Enrollment tokens over whole runs. */
module Tokens {
  import opened Wrappers
  import opened Bytes
  import opened Crypto
  import opened ControllerModel
  import opened ControllerRuns

  /** Every token identifier was drawn by the controller. */
  predicate TokensDrawn(w: World) {
    forall t :: t in w.state.tokens ==> t in w.issuedIds
  }

  /** The token was drawn, and if it still exists it belongs to the device. */
  predicate Bound(w: World, t: Uuid, device: Uuid) {
    t in w.issuedIds && (t in w.state.tokens ==> w.state.tokens[t].usedBy == Some(device))
  }

  /** The request is a successful enrollment of the device with this token. */
  predicate Redeems(w: World, e: Event, t: Uuid, device: Uuid) {
    && e.step.Join? && e.step.enrollment.token == Some(t) && e.step.enrollment.deviceId == device
    && Enroll(w.state, e.step.enrollment, e.now, e.freshId).1.Ok?
  }

  lemma NextTokens(w: World, e: Event)
    requires TokensDrawn(w)
    ensures TokensDrawn(Next(w, e))
  {
    hide SignPolicy, AssignedAddresses, SignAuthorization, CertificateFor, CompactPolicy, ValidRequest, Removed,
         Enrolled, Reauthorized, Candidate, AllowedWith, RequestedRoutes, NewNetwork, Released;
  }

  /** No request takes a token from the device it is bound to. */
  lemma NextKeepsBound(w: World, e: Event, t: Uuid, device: Uuid)
    requires CanHappen(w, e) && Bound(w, t, device)
    ensures Bound(Next(w, e), t, device)
  {
    hide SignPolicy, AssignedAddresses, SignAuthorization, CertificateFor, CompactPolicy, ValidRequest, Removed,
         Enrolled, Reauthorized, Candidate, AllowedWith, RequestedRoutes, NewNetwork, Released;
  }

  lemma {:induction false} RunKeepsBound(w: World, events: seq<Event>, t: Uuid, device: Uuid)
    requires Runs(w, events) && Bound(w, t, device)
    ensures Bound(Run(w, events), t, device)
    decreases events
  {
    hide Next, CanHappen, Bound;
    if events == [] {
    } else {
      NextKeepsBound(w, events[0], t, device);
      RunKeepsBound(Next(w, events[0]), events[1..], t, device);
    }
  }

  lemma {:induction false} RunKeepsTokens(w: World, events: seq<Event>)
    requires TokensDrawn(w)
    ensures TokensDrawn(Run(w, events))
    decreases events
  {
    hide Next, TokensDrawn;
    if events == [] {
    } else {
      NextTokens(w, events[0]);
      RunKeepsTokens(Next(w, events[0]), events[1..]);
    }
  }

  /** What a successful enrollment says about its token. */
  lemma RedeemingBinds(w: World, e: Event, t: Uuid, device: Uuid)
    requires TokensDrawn(w) && Redeems(w, e, t, device)
    ensures t in w.state.tokens && w.state.tokens[t].networkId == e.step.enrollment.networkId
    ensures e.now <= w.state.tokens[t].expiresAt
    ensures w.state.tokens[t].usedBy == None || w.state.tokens[t].usedBy == Some(device)
    ensures Bound(Next(w, e), t, device)
  {
    hide AssignedAddresses, SignAuthorization, CertificateFor, Enrolled, Released;
  }

  /** A token serves one device: two successful enrollments with it, however far apart in a
      run from an empty controller, are of the same device. */
  lemma TokenServesOneDevice(key: SigningKey, adminToken: string, before: seq<Event>, e: Event,
                             between: seq<Event>, e': Event, t: Uuid, device: Uuid, device': Uuid)
    requires Runs(Initial(key, adminToken), before)
    requires var w := Run(Initial(key, adminToken), before);
             && Redeems(w, e, t, device) && Runs(Next(w, e), between)
             && Redeems(Run(Next(w, e), between), e', t, device')
    ensures device' == device
  {
    RunKeepsTokens(Initial(key, adminToken), before);
    var w := Run(Initial(key, adminToken), before);
    hide Initial, Run, Runs, Next, TokensDrawn, Redeems;
    RedeemingBinds(w, e, t, device);
    NextTokens(w, e);
    RunKeepsBound(Next(w, e), between, t, device);
    RunKeepsTokens(Next(w, e), between);
    RedeemingBinds(Run(Next(w, e), between), e', t, device');
  }
}
