/** The signed ephemeral handshake that gives two members their pairwise session keys. */
module Handshake {
  import opened Wrappers
  import opened Bytes
  import opened Crypto
  import opened SessionCodec
  import opened SessionKeys
  import opened SessionChannel
  import opened ReplayWindows

  const SESSION_PROTOCOL_VERSION := 1

  datatype InitPayload = InitPayload(
    version: nat,
    network: Uuid,
    initiator: Uuid,
    responder: Uuid,
    sessionId: Bytes16,
    initiatorEphemeral: EphemeralKey,
    issuedAt: U64)

  datatype ResponsePayload = ResponsePayload(
    version: nat,
    network: Uuid,
    initiator: Uuid,
    responder: Uuid,
    sessionId: Bytes16,
    initiatorEphemeral: EphemeralKey,
    responderEphemeral: EphemeralKey,
    issuedAt: U64)

  /** What is signed: a payload under the domain string of its kind. */
  datatype HandshakeMessage = InitMessage(init: InitPayload) | ResponseMessage(response: ResponsePayload)

  datatype SessionInit = SessionInit(payload: InitPayload, signature: Signature<HandshakeMessage>)

  /** The JSON text after the routing header. */
  datatype Json =
    | InitJson(init: InitPayload, signature: Signature<HandshakeMessage>)
    | ResponseJson(response: ResponsePayload, signature: Signature<HandshakeMessage>)
    | NotJson

  datatype RoutedPacket = RoutedPacket(header: seq<Byte>, body: Json)

  /** The decoder ignores unknown fields, so a response also reads as an init; only the
      signature domain tells the two apart. */
  function DecodeInit(body: Json): Option<SessionInit> {
    match body
    case InitJson(init, signature) => Some(SessionInit(init, signature))
    case ResponseJson(r, signature) =>
      Some(SessionInit(InitPayload(r.version, r.network, r.initiator, r.responder, r.sessionId,
                                   r.initiatorEphemeral, r.issuedAt), signature))
    case NotJson => None
  }

  function VerifyFresh(version: nat, issuedAt: U64, now: U64, skew: U64): Outcome<SessionError> {
    if version != SESSION_PROTOCOL_VERSION then Fail(InvalidSessionPacket)
    else if AbsDiff(now, issuedAt) > skew then Fail(StaleSessionHandshake)
    else Pass
  }

  function VerifyPayload(message: HandshakeMessage, signature: Signature<HandshakeMessage>, key: PublicKey)
    : Outcome<SessionError>
  {
    if !key.Ed25519? then Fail(InvalidIdentityKey)
    else if !Verifies(key, message, signature) then Fail(InvalidSessionSignature)
    else Pass
  }

  /** The two halves of the expansion are handed out by role. */
  function DeriveSessionKeys(networkKey: nat, r: ResponsePayload, secret: SharedSecret, localIsInitiator: bool)
    : Result<PairwiseSessionKeys, SessionError>
  {
    if secret == AllZero then Err(InvalidSessionKey)
    else
      var info := KdfInfo(r.network, r.initiator, r.responder, r.sessionId,
                          r.initiatorEphemeral, r.responderEphemeral);
      var toResponder := TrafficKey(networkKey, secret, info, InitiatorToResponder);
      var toInitiator := TrafficKey(networkKey, secret, info, ResponderToInitiator);
      Ok(if localIsInitiator then PairwiseSessionKeys(r.sessionId, toResponder, toInitiator)
         else PairwiseSessionKeys(r.sessionId, toInitiator, toResponder))
  }

  /** The initiator's state between its init and the response. */
  datatype InitiatorHandshake = InitiatorHandshake(init: InitPayload, secret: nat)

  /** `start`, with the random session identifier and ephemeral secret as arguments. */
  function Start(network: Uuid, initiator: Uuid, responder: Uuid, identity: SigningKey, issuedAt: U64,
                 sessionId: Bytes16, secret: nat): (InitiatorHandshake, RoutedPacket)
  {
    var payload := InitPayload(SESSION_PROTOCOL_VERSION, network, initiator, responder, sessionId,
                               Point(secret), issuedAt);
    (InitiatorHandshake(payload, secret),
     RoutedPacket(RoutingHeader(RELAY_SESSION_INIT, Routing(network, initiator, responder)),
                  InitJson(payload, Sign(identity, InitMessage(payload)))))
  }

  /** The response payload an accepted init leads to. */
  function ResponseTo(init: InitPayload, routing: Routing, now: U64, secret: nat): ResponsePayload {
    ResponsePayload(SESSION_PROTOCOL_VERSION, routing.network, routing.source, routing.destination,
                    init.sessionId, init.initiatorEphemeral, Point(secret), now)
  }

  /** `accept_pairwise_handshake`, with the random ephemeral secret as an argument. */
  function Accept(packet: RoutedPacket, initiatorKey: PublicKey, identity: SigningKey, networkKey: nat,
                  now: U64, skew: U64, secret: nat)
    : Result<(PairwiseSessionKeys, RoutedPacket), SessionError>
  {
    match ParseRoutingHeader(packet.header, RELAY_SESSION_INIT)
    case Err(e) => Err(e)
    case Ok(routing) =>
      match DecodeInit(packet.body)
      case None => Err(InvalidSessionPacket)
      case Some(init) =>
        if Routing(init.payload.network, init.payload.initiator, init.payload.responder) != routing then
          Err(SessionIdentityMismatch)
        else
          match VerifyFresh(init.payload.version, init.payload.issuedAt, now, skew)
          case Fail(e) => Err(e)
          case Pass =>
            match VerifyPayload(InitMessage(init.payload), init.signature, initiatorKey)
            case Fail(e) => Err(e)
            case Pass =>
              var response := ResponseTo(init.payload, routing, now, secret);
              match DeriveSessionKeys(networkKey, response,
                                      DiffieHellman(secret, init.payload.initiatorEphemeral), false)
              case Err(e) => Err(e)
              case Ok(keys) =>
                Ok((keys, RoutedPacket(
                  RoutingHeader(RELAY_SESSION_RESPONSE,
                                Routing(routing.network, routing.destination, routing.source)),
                  ResponseJson(response, Sign(identity, ResponseMessage(response))))))
  }

  function Complete(h: InitiatorHandshake, packet: RoutedPacket, responderKey: PublicKey, networkKey: nat,
                    now: U64, skew: U64): Result<PairwiseSessionKeys, SessionError>
  {
    match ParseRoutingHeader(packet.header, RELAY_SESSION_RESPONSE)
    case Err(e) => Err(e)
    case Ok(routing) =>
      if routing != Routing(h.init.network, h.init.responder, h.init.initiator) then
        Err(SessionIdentityMismatch)
      else if !packet.body.ResponseJson? then
        Err(InvalidSessionPacket)
      else
        var r := packet.body.response;
        match VerifyFresh(r.version, r.issuedAt, now, skew)
        case Fail(e) => Err(e)
        case Pass =>
          if || r.network != h.init.network || r.initiator != h.init.initiator
             || r.responder != h.init.responder || r.sessionId != h.init.sessionId
             || r.initiatorEphemeral != h.init.initiatorEphemeral then
            Err(SessionIdentityMismatch)
          else
            match VerifyPayload(ResponseMessage(r), packet.body.signature, responderKey)
            case Fail(e) => Err(e)
            case Pass =>
              DeriveSessionKeys(networkKey, r, DiffieHellman(h.secret, r.responderEphemeral), true)
  }

  lemma DiffieHellmanCommutes(a: nat, b: nat)
    ensures DiffieHellman(a, Point(b)) == DiffieHellman(b, Point(a)) != AllZero
  {
  }

  /** On matching inputs inside the clock skew, all three steps succeed, and the two sides end
      with mirrored keys that differ by direction. */
  lemma HandshakeAgrees(network: Uuid, initiator: Uuid, responder: Uuid, idI: SigningKey, idR: SigningKey,
                        networkKey: nat, sessionId: Bytes16, secretI: nat, secretR: nat,
                        t0: U64, t1: U64, t2: U64, skew: U64)
    requires AbsDiff(t1, t0) <= skew && AbsDiff(t2, t1) <= skew
    ensures var (h, init) := Start(network, initiator, responder, idI, t0, sessionId, secretI);
            var accepted := Accept(init, VerifyingKey(idI), idR, networkKey, t1, skew, secretR);
            && accepted.Ok?
            && var completed := Complete(h, accepted.value.1, VerifyingKey(idR), networkKey, t2, skew);
            && completed.Ok?
            && Mirrored(completed.value, accepted.value.0)
            && completed.value.sessionId == sessionId
            && completed.value.sendKey != completed.value.receiveKey
  {
    var toR := Routing(network, initiator, responder);
    var toI := Routing(network, responder, initiator);
    RoutingRoundTrip(RELAY_SESSION_INIT, toR, []);
    RoutingRoundTrip(RELAY_SESSION_RESPONSE, toI, []);
    assert RoutingHeader(RELAY_SESSION_INIT, toR) + [] == RoutingHeader(RELAY_SESSION_INIT, toR);
    assert RoutingHeader(RELAY_SESSION_RESPONSE, toI) + [] == RoutingHeader(RELAY_SESSION_RESPONSE, toI);
    DiffieHellmanCommutes(secretI, secretR);
  }

  /** One successful `Accept` call of a responder. */
  datatype AcceptCall = AcceptCall(packet: RoutedPacket, initiatorKey: PublicKey, networkKey: nat,
                                   now: U64, skew: U64, secret: nat)

  ghost predicate AcceptedAs(call: AcceptCall, identity: SigningKey, response: ResponsePayload) {
    var r := Accept(call.packet, call.initiatorKey, identity, call.networkKey, call.now, call.skew, call.secret);
    r.Ok? && r.value.1.body.ResponseJson? && r.value.1.body.response == response
  }

  ghost function AcceptedKeys(call: AcceptCall, identity: SigningKey): PairwiseSessionKeys
    requires Accept(call.packet, call.initiatorKey, identity, call.networkKey, call.now, call.skew, call.secret).Ok?
  {
    Accept(call.packet, call.initiatorKey, identity, call.networkKey, call.now, call.skew, call.secret).value.0
  }

  /** Authentication against an active network: whatever packet completes a handshake, if the
      responder signs responses only by accepting inits, then one of its accepted calls answers
      this very init, and the two sides hold mirrored keys exactly when they used the same
      network key. */
  lemma CompleteAuthenticates(network: Uuid, initiator: Uuid, responder: Uuid, idI: SigningKey,
                              idR: SigningKey, t0: U64, sessionId: Bytes16, secretI: nat,
                              packet: RoutedPacket, networkKey: nat, now: U64, skew: U64,
                              calls: set<AcceptCall>)
    requires forall r :: packet.body.ResponseJson? && packet.body.signature == Sign(idR, ResponseMessage(r)) ==>
               exists call :: call in calls && AcceptedAs(call, idR, r)
    requires var h := Start(network, initiator, responder, idI, t0, sessionId, secretI).0;
             Complete(h, packet, VerifyingKey(idR), networkKey, now, skew).Ok?
    ensures var h := Start(network, initiator, responder, idI, t0, sessionId, secretI).0;
            var keys := Complete(h, packet, VerifyingKey(idR), networkKey, now, skew).value;
            exists call :: call in calls && AcceptedAs(call, idR, packet.body.response) &&
              (Mirrored(keys, AcceptedKeys(call, idR)) <==> call.networkKey == networkKey)
    ensures packet.body.response.version == SESSION_PROTOCOL_VERSION
    ensures AbsDiff(now, packet.body.response.issuedAt) <= skew
  {
    var h := Start(network, initiator, responder, idI, t0, sessionId, secretI).0;
    var response := packet.body.response;
    assert packet.body.signature == Sign(idR, ResponseMessage(response));
    var call :| call in calls && AcceptedAs(call, idR, response);
    var keys := Complete(h, packet, VerifyingKey(idR), networkKey, now, skew).value;
    var theirs := AcceptedKeys(call, idR);
    assert response.responderEphemeral == Point(call.secret);
    assert DecodeInit(call.packet.body).value.payload.initiatorEphemeral == Point(secretI);
    DiffieHellmanCommutes(secretI, call.secret);
    assert Mirrored(keys, theirs) <==> call.networkKey == networkKey;
  }

  /** An accepted init was signed by the initiator over exactly the fields the response echoes. */
  lemma AcceptAuthenticates(call: AcceptCall, idI: SigningKey, idR: SigningKey, response: ResponsePayload)
    requires call.initiatorKey == VerifyingKey(idI) && AcceptedAs(call, idR, response)
    ensures DecodeInit(call.packet.body).Some?
    ensures var init := DecodeInit(call.packet.body).value.payload;
            && call.packet.body.signature == Sign(idI, InitMessage(init))
            && response == ResponsePayload(SESSION_PROTOCOL_VERSION, init.network, init.initiator, init.responder,
                                           init.sessionId, init.initiatorEphemeral, Point(call.secret), call.now)
            && AbsDiff(call.now, init.issuedAt) <= call.skew
  {
  }

  /** A genuine response replayed under an init header is never accepted: it reads as an init,
      and the signature domain refuses it. */
  lemma ResponseIsNotInit(header: seq<Byte>, response: ResponsePayload, signer: SigningKey,
                          initiatorKey: PublicKey, idR: SigningKey, networkKey: nat, now: U64, skew: U64, secret: nat)
    ensures DecodeInit(ResponseJson(response, Sign(signer, ResponseMessage(response)))).Some?
    ensures Accept(RoutedPacket(header, ResponseJson(response, Sign(signer, ResponseMessage(response)))),
                   initiatorKey, idR, networkKey, now, skew, secret).Err?
  {
  }

  /** When an init is accepted, exactly: its header is the init header of its own network and
      pair, it has this version, was issued within the skew, was signed as an init by the holder of
      the initiator key, and its ephemeral key is not of low order. */
  ghost predicate Acceptable(packet: RoutedPacket, init: SessionInit, initiatorKey: PublicKey, now: U64, skew: U64) {
    var p := init.payload;
    && |packet.header| >= RELAY_DATA_HEADER_LEN
    && packet.header[..RELAY_DATA_HEADER_LEN] ==
         RoutingHeader(10, Routing(p.network, p.initiator, p.responder))
    && p.version == 1 && now <= p.issuedAt + skew && p.issuedAt <= now + skew
    && initiatorKey.Ed25519? && init.signature == SignedBy(SigningKey(initiatorKey.seed), InitMessage(p))
    && p.initiatorEphemeral.Point?
  }

  lemma AcceptIsExact(packet: RoutedPacket, initiatorKey: PublicKey, identity: SigningKey, networkKey: nat,
                      now: U64, skew: U64, secret: nat)
    ensures Accept(packet, initiatorKey, identity, networkKey, now, skew, secret).Ok? <==>
              DecodeInit(packet.body).Some? && Acceptable(packet, DecodeInit(packet.body).value, initiatorKey, now, skew)
    ensures Accept(packet, initiatorKey, identity, networkKey, now, skew, secret).Ok? ==>
              var p := DecodeInit(packet.body).value.payload;
              var (keys, answer) := Accept(packet, initiatorKey, identity, networkKey, now, skew, secret).value;
              && keys.sessionId == p.sessionId
              && answer.header == RoutingHeader(11, Routing(p.network, p.responder, p.initiator))
              && answer.body.ResponseJson?
              && answer.body.signature == Sign(identity, ResponseMessage(answer.body.response))
  {
    hide RoutingHeader, ParseRoutingHeader;
    if DecodeInit(packet.body).Some? {
      var p := DecodeInit(packet.body).value.payload;
      RoutingIsExact(packet.header, RELAY_SESSION_INIT, Routing(p.network, p.initiator, p.responder));
    }
  }

  /** When a response completes a handshake, exactly: its header is the response header from this
      responder, it echoes every field of the init, it has this version, was issued within the
      skew, was signed as a response by the holder of the responder key, and its ephemeral key is
      not of low order. */
  ghost predicate Completable(h: InitiatorHandshake, packet: RoutedPacket, responderKey: PublicKey, now: U64, skew: U64) {
    && |packet.header| >= RELAY_DATA_HEADER_LEN
    && packet.header[..RELAY_DATA_HEADER_LEN] ==
         RoutingHeader(11, Routing(h.init.network, h.init.responder, h.init.initiator))
    && packet.body.ResponseJson?
    && var r := packet.body.response;
    && r == ResponsePayload(1, h.init.network, h.init.initiator, h.init.responder, h.init.sessionId,
                            h.init.initiatorEphemeral, r.responderEphemeral, r.issuedAt)
    && now <= r.issuedAt + skew && r.issuedAt <= now + skew
    && responderKey.Ed25519? && packet.body.signature == SignedBy(SigningKey(responderKey.seed), ResponseMessage(r))
    && r.responderEphemeral.Point?
  }

  lemma CompleteIsExact(h: InitiatorHandshake, packet: RoutedPacket, responderKey: PublicKey, networkKey: nat,
                        now: U64, skew: U64)
    ensures Complete(h, packet, responderKey, networkKey, now, skew).Ok? <==>
              Completable(h, packet, responderKey, now, skew)
    ensures Complete(h, packet, responderKey, networkKey, now, skew).Ok? ==>
              Complete(h, packet, responderKey, networkKey, now, skew).value.sessionId == h.init.sessionId
  {
    hide RoutingHeader, ParseRoutingHeader;
    RoutingIsExact(packet.header, RELAY_SESSION_RESPONSE, Routing(h.init.network, h.init.responder, h.init.initiator));
  }

  /** Keys bind the session: two derivations that agree on a traffic key used the same network
      key and the same secret, for the same network, pair, session and ephemeral keys. */
  lemma KeysBindTheSession(k: nat, r: ResponsePayload, secret: SharedSecret, initiator: bool,
                           k': nat, r': ResponsePayload, secret': SharedSecret, initiator': bool)
    ensures DeriveSessionKeys(k, r, secret, initiator).Ok? <==> secret != AllZero
    ensures var (a, b) := (DeriveSessionKeys(k, r, secret, initiator), DeriveSessionKeys(k', r', secret', initiator'));
            a.Ok? && b.Ok? && {a.value.sendKey, a.value.receiveKey} * {b.value.sendKey, b.value.receiveKey} != {} ==>
              && k == k' && secret == secret' && r.sessionId == r'.sessionId
              && r.network == r'.network && r.initiator == r'.initiator && r.responder == r'.responder
              && r.initiatorEphemeral == r'.initiatorEphemeral && r.responderEphemeral == r'.responderEphemeral
              && (a.value.sendKey == b.value.sendKey <==> initiator == initiator')
  {
    var (a, b) := (DeriveSessionKeys(k, r, secret, initiator), DeriveSessionKeys(k', r', secret', initiator'));
    if a.Ok? && b.Ok? && {a.value.sendKey, a.value.receiveKey} * {b.value.sendKey, b.value.receiveKey} != {} {
      var shared :| shared in {a.value.sendKey, a.value.receiveKey} * {b.value.sendKey, b.value.receiveKey};
    }
  }

  /** End to end: after a matching handshake each side opens, on a fresh window, what the
      other seals, and neither opens its own packets. */
  lemma HandshakeThenTraffic(network: Uuid, initiator: Uuid, responder: Uuid, idI: SigningKey, idR: SigningKey,
                             networkKey: nat, sessionId: Bytes16, secretI: nat, secretR: nat,
                             t0: U64, t1: U64, t2: U64, skew: U64, m: Sealing)
    requires AbsDiff(t1, t0) <= skew && AbsDiff(t2, t1) <= skew
    ensures var (h, init) := Start(network, initiator, responder, idI, t0, sessionId, secretI);
            var accepted := Accept(init, VerifyingKey(idI), idR, networkKey, t1, skew, secretR);
            && accepted.Ok?
            && var completed := Complete(h, accepted.value.1, VerifyingKey(idR), networkKey, t2, skew);
            && completed.Ok?
            && var (i, r) := (completed.value, accepted.value.0);
            && Open(r, EMPTY_WINDOW, SealingPacket(i, m)).0 == Ok(Delivery(i, m))
            && Open(i, EMPTY_WINDOW, SealingPacket(r, m)).0 == Ok(Delivery(r, m))
            && Open(i, EMPTY_WINDOW, SealingPacket(i, m)).0.Err?
            && Open(r, EMPTY_WINDOW, SealingPacket(r, m)).0.Err?
  {
    HandshakeAgrees(network, initiator, responder, idI, idR, networkKey, sessionId, secretI, secretR, t0, t1, t2, skew);
    var (h, init) := Start(network, initiator, responder, idI, t0, sessionId, secretI);
    var accepted := Accept(init, VerifyingKey(idI), idR, networkKey, t1, skew, secretR);
    var i := Complete(h, accepted.value.1, VerifyingKey(idR), networkKey, t2, skew).value;
    var r := accepted.value.0;
    hide Accept, Complete, Start, Open;
    SealThenOpen(r, i, m);
    SealThenOpen(i, r, m);
    ReflectionRejected(i, EMPTY_WINDOW, m);
    ReflectionRejected(r, EMPTY_WINDOW, m);
  }
}
