/** Which traffic keys a controller hands out, over whole runs.

Creating a network and removing a member each generate a key.  In the runs considered here a
generated key is one that was never generated before.
*/
module TrafficKeys {
  import opened Wrappers
  import opened Bytes
  import opened Crypto
  import opened ControllerModel
  import opened Authorization
  import opened ControllerRuns
  import opened Revocation

  /** The key a request generates. */
  function Drawn(e: Event): set<seq<Byte>> {
    match e.step
    case Create(_, _, networkKey) => {networkKey}
    case Remove(_, _, _, networkKey) => {networkKey}
    case _ => {}
  }

  /** The network and the key in the answer to a request: enrollments and refreshes carry one. */
  function Answer(s: ControllerState, e: Event): Option<(Uuid, seq<Byte>)> {
    match e.step
    case Join(enrollment) =>
      (match Enroll(s, enrollment, e.now, e.freshId).1
       case Err(_) => None
       case Ok(response) => Some((enrollment.networkId, response.networkKey)))
    case Refresh(refresh, nonceIsNew, answeredAt) =>
      if nonceIsNew && RefreshAdmissible(s, refresh, e.now).Pass?
      then Some((refresh.payload.networkId, RefreshAnswer(s, refresh, answeredAt).networkKey)) else None
    case _ => None
  }

  function KeysDrawn(events: seq<Event>): set<seq<Byte>> {
    if events == [] then {} else Drawn(events[0]) + KeysDrawn(events[1..])
  }

  /** The keys handed out in a run. */
  function KeysHandedOut(w: World, events: seq<Event>): set<seq<Byte>>
    decreases events
  {
    if events == [] then {}
    else
      var answer := Answer(w.state, events[0]);
      (if answer.Some? then {answer.value.1} else {}) + KeysHandedOut(Next(w, events[0]), events[1..])
  }

  /** Every key generated is new. */
  predicate NewKeys(drawn: set<seq<Byte>>, events: seq<Event>)
    decreases events
  {
    events == [] || (Drawn(events[0]) !! drawn && NewKeys(drawn + Drawn(events[0]), events[1..]))
  }

  // ----- One request

  /** An answer carries the key its network has, before the request and after it. */
  lemma AnswerCarriesCurrentKey(s: ControllerState, e: Event)
    requires Answer(s, e).Some?
    ensures var (id, key) := Answer(s, e).value;
            && id in s.networks && s.networks[id].networkKey == key
            && id in NextState(s, e).networks && NextState(s, e).networks[id].networkKey == key
  {
    hide AssignedAddresses, SignAuthorization, CertificateFor, VerifyRefresh;
  }

  /** After a request a network's key is the one just generated or the one it had. */
  lemma KeyAfter(s: ControllerState, e: Event, id: Uuid)
    requires id in NextState(s, e).networks
    ensures var key := NextState(s, e).networks[id].networkKey;
            key in Drawn(e) || (id in s.networks && s.networks[id].networkKey == key)
  {
    hide SignPolicy, AssignedAddresses, SignAuthorization, CertificateFor, CompactPolicy, Without, AllowedWith,
         RequestedRoutes, ValidRequest;
  }

  /** A removal puts the generated key in place. */
  lemma RemovalReplacesKey(w: World, e: Event, id: Uuid, device: Uuid)
    requires Removes(w, e, id, device)
    ensures id in NextState(w.state, e).networks
    ensures NextState(w.state, e).networks[id].networkKey == e.step.networkKey
  {
    RemovalStep(w.state, e, id, device);
    hide NextState, Without;
  }

  // ----- Runs

  ghost predicate KeysWithin(s: ControllerState, drawn: set<seq<Byte>>) {
    forall id :: id in s.networks ==> s.networks[id].networkKey in drawn
  }

  lemma NextKeepsKeysWithin(s: ControllerState, e: Event, drawn: set<seq<Byte>>)
    requires KeysWithin(s, drawn)
    ensures KeysWithin(NextState(s, e), drawn + Drawn(e))
  {
    hide NextState;
    forall id | id in NextState(s, e).networks
      ensures NextState(s, e).networks[id].networkKey in drawn + Drawn(e)
    {
      KeyAfter(s, e, id);
    }
  }

  /** Only generated keys are ever stored or handed out. */
  lemma {:induction false} HandedOutWasDrawn(w: World, events: seq<Event>, drawn: set<seq<Byte>>)
    requires KeysWithin(w.state, drawn)
    ensures KeysHandedOut(w, events) <= drawn + KeysDrawn(events)
    ensures KeysWithin(Run(w, events).state, drawn + KeysDrawn(events))
    decreases events
  {
    hide NextState, Answer, KeysWithin, Released;
    if events == [] {
      assert drawn + KeysDrawn(events) == drawn;
    } else {
      var e := events[0];
      NextKeepsKeysWithin(w.state, e, drawn);
      HandedOutWasDrawn(Next(w, e), events[1..], drawn + Drawn(e));
      assert drawn + Drawn(e) + KeysDrawn(events[1..]) == drawn + KeysDrawn(events);
      if Answer(w.state, e).Some? {
        AnswerKeyWithin(w.state, e, drawn);
      }
    }
  }

  lemma AnswerKeyWithin(s: ControllerState, e: Event, drawn: set<seq<Byte>>)
    requires KeysWithin(s, drawn) && Answer(s, e).Some?
    ensures Answer(s, e).value.1 in drawn
  {
    hide Answer, NextState;
    AnswerCarriesCurrentKey(s, e);
  }

  /** The network, if it exists, has none of these keys. */
  ghost predicate KeyOutside(s: ControllerState, id: Uuid, keys: set<seq<Byte>>) {
    id in s.networks ==> s.networks[id].networkKey !in keys
  }

  lemma {:induction false} KeyStaysOutside(w: World, events: seq<Event>, id: Uuid, keys: set<seq<Byte>>,
                                           drawn: set<seq<Byte>>)
    requires KeyOutside(w.state, id, keys) && keys <= drawn && NewKeys(drawn, events)
    ensures KeyOutside(Run(w, events).state, id, keys)
    decreases events
  {
    hide NextState, Released;
    if events == [] {
    } else {
      var e := events[0];
      if id in NextState(w.state, e).networks {
        KeyAfter(w.state, e, id);
      }
      KeyStaysOutside(Next(w, e), events[1..], id, keys, drawn + Drawn(e));
    }
  }

  /** A removal retires the traffic key: no answer of that network after it, however the run goes
      on, deletion and re-creation included, carries a key that was handed out before it. */
  lemma RemovalRetiresTheKey(key: SigningKey, adminToken: string, before: seq<Event>, e: Event, after: seq<Event>,
                             f: Event, id: Uuid, device: Uuid)
    requires NewKeys({}, before)
    requires var w := Run(Initial(key, adminToken), before);
             && Removes(w, e, id, device)
             && Drawn(e) !! KeysDrawn(before) && NewKeys(KeysDrawn(before) + Drawn(e), after)
             && var w' := Run(Next(w, e), after);
             Answer(w'.state, f).Some? && Answer(w'.state, f).value.0 == id
    ensures var w' := Run(Next(Run(Initial(key, adminToken), before), e), after);
            Answer(w'.state, f).value.1 !in KeysHandedOut(Initial(key, adminToken), before)
  {
    var w0 := Initial(key, adminToken);
    assert KeysWithin(w0.state, {});
    hide NextState, Released, Answer, Initial, KeysWithin;
    HandedOutWasDrawn(w0, before, {});
    var w := Run(w0, before);
    var earlier := KeysDrawn(before);
    assert {} + earlier == earlier;
    RemovalReplacesKey(w, e, id, device);
    assert e.step.networkKey in Drawn(e);
    KeyStaysOutside(Next(w, e), after, id, earlier, earlier + Drawn(e));
    AnswerCarriesCurrentKey(Run(Next(w, e), after).state, f);
  }
}
