/** Sealing and opening session data packets, and what a receiver delivers over a whole run
on a network that drops, duplicates, reorders and injects packets. */
module SessionChannel {
  import opened Wrappers
  import opened Bytes
  import opened ReplayWindows
  import opened SessionCodec
  import opened SessionKeys

  /** The rest of a packet after its front: an ideal AEAD ciphertext, which remembers what it
      was made from and is sixteen bytes longer than the plaintext, or bytes that no key
      produced. */
  datatype Ciphertext =
    | Sealed(key: TrafficKey, nonce: seq<Byte>, associated: seq<Byte>, plaintext: seq<Byte>)
    | Noise(bytes: seq<Byte>)
  {
    function Length(): nat {
      match this
      case Sealed(_, _, _, plaintext) => |plaintext| + 16
      case Noise(bytes) => |bytes|
    }
  }

  datatype RawPacket = RawPacket(front: seq<Byte>, rest: Ciphertext) {
    function Length(): nat {
      |front| + rest.Length()
    }
  }

  /** A packet cut after its first 77 bytes; a shorter packet has nothing after the cut. */
  type Packet = p: RawPacket |
    |p.front| == SESSION_DATA_HEADER_LEN || (|p.front| < SESSION_DATA_HEADER_LEN && p.rest == Noise([]))
    witness RawPacket([], Noise([]))

  datatype SessionPacket = SessionPacket(header: DataHeader, plaintext: seq<Byte>)

  function Encrypt(key: TrafficKey, nonce: seq<Byte>, associated: seq<Byte>, plaintext: seq<Byte>): Ciphertext {
    Sealed(key, nonce, associated, plaintext)
  }

  function Decrypt(key: TrafficKey, nonce: seq<Byte>, associated: seq<Byte>, c: Ciphertext): Option<seq<Byte>> {
    if c.Sealed? && c.key == key && c.nonce == nonce && c.associated == associated then Some(c.plaintext)
    else None
  }

  function Seal(keys: PairwiseSessionKeys, routing: Routing, sequence: U64, plaintext: seq<Byte>): Packet {
    var header := SessionDataHeader(DataHeader(routing, keys.sessionId, sequence));
    RawPacket(header, Encrypt(keys.sendKey, SessionNonce(keys.sessionId, sequence), header, plaintext))
  }

  function Open(keys: PairwiseSessionKeys, w: Window, p: Packet)
    : (r: (Result<SessionPacket, SessionError>, Window))
    ensures r.0.Err? ==> r.1 == w
  {
    match ParseDataHeader(p.front, p.Length())
    case Err(e) => (Err(e), w)
    case Ok(header) =>
      if header.sessionId != keys.sessionId || !CanAccept(w, header.sequence) then
        (Err(SessionReplayDetected), w)
      else
        match Decrypt(keys.receiveKey, SessionNonce(header.sessionId, header.sequence), p.front, p.rest)
        case None => (Err(AuthenticationFailed), w)
        case Some(plaintext) => (Ok(SessionPacket(header, plaintext)), Mark(w, header.sequence))
  }

  /** `PairwiseSessionKeys::open` on a mutable window. */
  method OpenPacket(keys: PairwiseSessionKeys, window: ReplayWindow, p: Packet)
    returns (r: Result<SessionPacket, SessionError>)
    modifies window
    ensures (r, window.State()) == Open(keys, old(window.State()), p)
    ensures r.Err? ==> window.State() == old(window.State())
  {
    var parsed := ParseDataHeader(p.front, p.Length());
    if parsed.Err? {
      return Err(parsed.error);
    }
    var header := parsed.value;
    if header.sessionId != keys.sessionId || !CanAccept(window.State(), header.sequence) {
      return Err(SessionReplayDetected);
    }
    var plaintext := Decrypt(keys.receiveKey, SessionNonce(header.sessionId, header.sequence), p.front, p.rest);
    if plaintext.None? {
      return Err(AuthenticationFailed);
    }
    window.MarkSequence(header.sequence);
    return Ok(SessionPacket(header, plaintext.value));
  }

  /** Everything about one packet the peer sealed. */
  datatype Sealing = Sealing(routing: Routing, sequence: U64, plaintext: seq<Byte>)

  function SealingPacket(keys: PairwiseSessionKeys, m: Sealing): Packet {
    Seal(keys, m.routing, m.sequence, m.plaintext)
  }

  function Delivery(keys: PairwiseSessionKeys, m: Sealing): SessionPacket {
    SessionPacket(DataHeader(m.routing, keys.sessionId, m.sequence), m.plaintext)
  }

  /** A packet opens exactly when it is, bit for bit, a packet sealed in this session under
      the receive key and its sequence is acceptable; what it yields is what was sealed. */
  lemma OpenIsExact(mine: PairwiseSessionKeys, peer: PairwiseSessionKeys, w: Window, seen: set<U64>, p: Packet)
    requires Mirrored(peer, mine) && Represents(w, seen)
    ensures Open(mine, w, p).0.Ok? <==>
              exists m :: p == SealingPacket(peer, m) && Acceptable(seen, m.sequence)
    ensures forall m :: p == SealingPacket(peer, m) && Acceptable(seen, m.sequence) ==>
              Open(mine, w, p) == (Ok(Delivery(peer, m)), Mark(w, m.sequence))
  {
    if Open(mine, w, p).0.Ok? {
      var outcome := Open(mine, w, p).0.value;
      var m := Sealing(outcome.header.routing, outcome.header.sequence, outcome.plaintext);
      HeaderOfParsed(p.front, p.Length());
      CanAcceptIsExact(w, seen, m.sequence);
      assert p == SealingPacket(peer, m);
    }
    forall m | p == SealingPacket(peer, m) && Acceptable(seen, m.sequence)
      ensures Open(mine, w, p) == (Ok(Delivery(peer, m)), Mark(w, m.sequence))
    {
      DataHeaderRoundTrip(DataHeader(m.routing, peer.sessionId, m.sequence), p.Length());
      CanAcceptIsExact(w, seen, m.sequence);
    }
  }

  /** A front that parses is the header of what it parses to. */
  lemma HeaderOfParsed(front: seq<Byte>, length: nat)
    requires |front| == SESSION_DATA_HEADER_LEN || |front| == length < SESSION_DATA_HEADER_LEN
    requires ParseDataHeader(front, length).Ok?
    ensures SessionDataHeader(ParseDataHeader(front, length).value) == front
  {
    FromBigEndianRoundTrip(front[5..21]);
    FromBigEndianRoundTrip(front[21..37]);
    FromBigEndianRoundTrip(front[37..53]);
    FromBigEndianRoundTrip(front[69..77]);
    var d := ParseDataHeader(front, length).value;
    assert UuidBytes(d.routing.network) == front[5..21];
    assert UuidBytes(d.routing.source) == front[21..37];
    assert UuidBytes(d.routing.destination) == front[37..53];
    assert SequenceBytes(d.sequence) == front[69..77];
    assert front == front[..4] + [front[4]] + front[5..21] + front[21..37] + front[37..53]
                    + front[53..69] + front[69..77];
  }

  /** Parsing exactly: a packet has a data header if and only if it begins with that header and has
      room for an authentication tag. */
  lemma DataHeaderIsExact(front: seq<Byte>, length: nat, d: DataHeader)
    requires |front| == SESSION_DATA_HEADER_LEN || |front| == length < SESSION_DATA_HEADER_LEN
    ensures ParseDataHeader(front, length) == Ok(d) <==> length >= 93 && front == SessionDataHeader(d)
  {
    if ParseDataHeader(front, length) == Ok(d) {
      HeaderOfParsed(front, length);
    }
    if length >= 93 && front == SessionDataHeader(d) {
      DataHeaderRoundTrip(d, length);
    }
  }

  /** A refusal names its cause: no data header; another session or a sequence that is not
      acceptable; or, past these, a ciphertext that is not of this key, nonce and header. */
  lemma RefusalNamesItsCause(keys: PairwiseSessionKeys, w: Window, seen: set<U64>, p: Packet)
    requires Represents(w, seen)
    ensures Open(keys, w, p).0 == Err(InvalidSessionPacket) <==>
              forall d :: !(p.Length() >= 93 && p.front == SessionDataHeader(d))
    ensures Open(keys, w, p).0 == Err(SessionReplayDetected) <==>
              exists d :: p.Length() >= 93 && p.front == SessionDataHeader(d)
                          && (d.sessionId != keys.sessionId || !Acceptable(seen, d.sequence))
  {
    hide SessionDataHeader, SessionNonce, Represents, Acceptable, CanAccept;
    var parsed := ParseDataHeader(p.front, p.Length());
    forall d ensures parsed == Ok(d) <==> p.Length() >= 93 && p.front == SessionDataHeader(d) {
      DataHeaderIsExact(p.front, p.Length(), d);
    }
    if parsed.Ok? {
      CanAcceptIsExact(w, seen, parsed.value.sequence);
      assert p.front == SessionDataHeader(parsed.value);
    } else {
      HeaderErrors(p.front, p.Length());
    }
  }

  lemma HeaderErrors(front: seq<Byte>, length: nat)
    requires |front| == SESSION_DATA_HEADER_LEN || |front| == length < SESSION_DATA_HEADER_LEN
    ensures ParseDataHeader(front, length).Err? ==> ParseDataHeader(front, length).error == InvalidSessionPacket
  {
  }

  /** A fresh receiver opens any packet its peer seals, and gets back what was sealed. */
  lemma SealThenOpen(mine: PairwiseSessionKeys, peer: PairwiseSessionKeys, m: Sealing)
    requires Mirrored(peer, mine)
    ensures Open(mine, EMPTY_WINDOW, SealingPacket(peer, m)).0 == Ok(Delivery(peer, m))
  {
    OpenIsExact(mine, peer, EMPTY_WINDOW, {}, SealingPacket(peer, m));
  }

  /** A packet never opens at the side that sealed it: the directions have different keys. */
  lemma ReflectionRejected(mine: PairwiseSessionKeys, w: Window, m: Sealing)
    requires mine.sendKey != mine.receiveKey
    ensures Open(mine, w, SealingPacket(mine, m)) == (Open(mine, w, SealingPacket(mine, m)).0, w)
    ensures Open(mine, w, SealingPacket(mine, m)).0.Err?
  {
  }

  /** What the receiver hands up over a run, and the window it ends with. */
  function Receive(keys: PairwiseSessionKeys, packets: seq<Packet>): (r: (seq<SessionPacket>, Window)) {
    if packets == [] then ([], EMPTY_WINDOW)
    else
      var (log, w) := Receive(keys, packets[..|packets| - 1]);
      var (outcome, w') := Open(keys, w, packets[|packets| - 1]);
      (if outcome.Ok? then log + [outcome.value] else log, w')
  }

  ghost function Sequences(log: seq<SessionPacket>): set<U64> {
    set i | 0 <= i < |log| :: log[i].header.sequence
  }

  /** Nobody but the peer seals under the peer's send key: every ciphertext under that key
      in the run was taken from a packet the peer sealed.  Fronts may be mixed freely. */
  ghost predicate Unforged(peer: PairwiseSessionKeys, sent: set<Sealing>, packets: seq<Packet>) {
    forall i :: 0 <= i < |packets| && packets[i].rest.Sealed? && packets[i].rest.key == peer.sendKey ==>
      exists m :: m in sent && packets[i].rest == SealingPacket(peer, m).rest
  }

  ghost predicate OncePerSequence(log: seq<SessionPacket>) {
    forall i, j :: 0 <= i < j < |log| ==> log[i].header.sequence != log[j].header.sequence
  }

  ghost predicate FromPeer(peer: PairwiseSessionKeys, sent: set<Sealing>, entry: SessionPacket) {
    exists m :: m in sent && entry == Delivery(peer, m)
  }

  /** What holds of a receiver at any moment: each sequence was delivered at most once, only
      what the peer sealed was delivered, and the window stands for exactly the delivered
      sequences. */
  ghost predicate Safe(peer: PairwiseSessionKeys, sent: set<Sealing>, log: seq<SessionPacket>, w: Window) {
    && OncePerSequence(log)
    && (forall i :: 0 <= i < |log| ==> FromPeer(peer, sent, log[i]))
    && Represents(w, Sequences(log))
  }

  /** One arriving packet, whatever it is, keeps the receiver safe. */
  lemma OpenKeepsSafe(mine: PairwiseSessionKeys, peer: PairwiseSessionKeys, sent: set<Sealing>,
                      log: seq<SessionPacket>, w: Window, p: Packet)
    requires Mirrored(peer, mine) && Safe(peer, sent, log, w) && Unforged(peer, sent, [p])
    ensures var (outcome, w') := Open(mine, w, p);
            Safe(peer, sent, if outcome.Ok? then log + [outcome.value] else log, w')
  {
    hide Open, SessionDataHeader, SessionNonce, Mark, CanAccept, Represents;
    var outcome := Open(mine, w, p).0;
    OpenIsExact(mine, peer, w, Sequences(log), p);
    if outcome.Ok? {
      var m :| p == SealingPacket(peer, m) && Acceptable(Sequences(log), m.sequence);
      assert [p][0].rest.key == peer.sendKey;
      var m' :| m' in sent && p.rest == SealingPacket(peer, m').rest;
      SealingInjective(peer, m, m');
      assert FromPeer(peer, sent, outcome.value);
      CanAcceptIsExact(w, Sequences(log), m.sequence);
      MarkedSequences(w, log, outcome.value, m.sequence);
      assert m.sequence !in Sequences(log);
      forall i | 0 <= i < |log| ensures log[i].header.sequence != m.sequence {
        assert log[i].header.sequence in Sequences(log);
      }
    }
  }

  /** Safety of every run. */
  lemma {:induction false} ReceiveIsSafe(mine: PairwiseSessionKeys, peer: PairwiseSessionKeys,
                                         sent: set<Sealing>, packets: seq<Packet>)
    requires Mirrored(peer, mine) && Unforged(peer, sent, packets)
    ensures Safe(peer, sent, Receive(mine, packets).0, Receive(mine, packets).1)
  {
    if packets == [] {
    } else {
      var last := packets[|packets| - 1];
      var front := packets[..|packets| - 1];
      ReceiveIsSafe(mine, peer, sent, front);
      assert packets[|packets| - 1] == [last][0];
      OpenKeepsSafe(mine, peer, sent, Receive(mine, front).0, Receive(mine, front).1, last);
    }
  }

  lemma SealingInjective(peer: PairwiseSessionKeys, m: Sealing, m': Sealing)
    requires SealingPacket(peer, m).rest == SealingPacket(peer, m').rest
    ensures m == m'
  {
    var d := DataHeader(m.routing, peer.sessionId, m.sequence);
    var d' := DataHeader(m'.routing, peer.sessionId, m'.sequence);
    assert SessionDataHeader(d) == SessionDataHeader(d');
    DataHeaderRoundTrip(d, 100);
    DataHeaderRoundTrip(d', 100);
  }

  lemma MarkedSequences(w: Window, log: seq<SessionPacket>, entry: SessionPacket, sequence: U64)
    requires Represents(w, Sequences(log)) && CanAccept(w, sequence)
    requires entry.header.sequence == sequence
    ensures Represents(Mark(w, sequence), Sequences(log + [entry]))
  {
    MarkRepresents(w, Sequences(log), sequence);
    var log' := log + [entry];
    assert Sequences(log') == Sequences(log) + {sequence} by {
      assert log'[|log|] == entry;
      forall s | s in Sequences(log) ensures s in Sequences(log') {
        var i :| 0 <= i < |log| && log[i].header.sequence == s;
        assert log'[i] == log[i];
      }
    }
  }

  /** When the sender never reuses a sequence, the plaintext delivered under a sequence is
      the one plaintext sealed under it. */
  lemma DeliversTheSealedPlaintext(mine: PairwiseSessionKeys, peer: PairwiseSessionKeys,
                                   sent: set<Sealing>, packets: seq<Packet>, i: nat, m: Sealing)
    requires Mirrored(peer, mine) && Unforged(peer, sent, packets)
    requires forall a, b :: a in sent && b in sent && a.sequence == b.sequence ==> a == b
    requires i < |Receive(mine, packets).0|
    requires m in sent && m.sequence == Receive(mine, packets).0[i].header.sequence
    ensures Receive(mine, packets).0[i] == Delivery(peer, m)
  {
    ReceiveIsSafe(mine, peer, sent, packets);
    assert FromPeer(peer, sent, Receive(mine, packets).0[i]);
  }

  /** Nothing genuine is lost to reordering inside the window: a sealed packet that arrives
      while its sequence is new and less than 64 behind is delivered. */
  lemma DeliversWithinWindow(mine: PairwiseSessionKeys, peer: PairwiseSessionKeys,
                             sent: set<Sealing>, packets: seq<Packet>, m: Sealing)
    requires Mirrored(peer, mine) && Unforged(peer, sent, packets)
    ensures var log := Receive(mine, packets).0;
            Acceptable(Sequences(log), m.sequence) ==>
              Receive(mine, packets + [SealingPacket(peer, m)]).0 == log + [Delivery(peer, m)]
    ensures var log := Receive(mine, packets).0;
            !Acceptable(Sequences(log), m.sequence) ==>
              Receive(mine, packets + [SealingPacket(peer, m)]) == Receive(mine, packets)
  {
    ReceiveIsSafe(mine, peer, sent, packets);
    var (log, w) := Receive(mine, packets);
    var p := SealingPacket(peer, m);
    OpenIsExact(mine, peer, w, Sequences(log), p);
    assert (packets + [p])[..|packets|] == packets;
    if Open(mine, w, p).0.Ok? {
      var m' :| p == SealingPacket(peer, m') && Acceptable(Sequences(log), m'.sequence);
      SealingInjective(peer, m, m');
    }
  }

  /** The run as the receiver performs it, one packet at a time on one window. */
  method ReceiveAll(keys: PairwiseSessionKeys, packets: seq<Packet>) returns (log: seq<SessionPacket>)
    ensures log == Receive(keys, packets).0
  {
    var window := new ReplayWindow();
    log := [];
    var i := 0;
    while i < |packets|
      invariant 0 <= i <= |packets|
      invariant (log, window.State()) == Receive(keys, packets[..i])
    {
      assert packets[..i + 1][..i] == packets[..i];
      var outcome := OpenPacket(keys, window, packets[i]);
      if outcome.Ok? {
        log := log + [outcome.value];
      }
      i := i + 1;
    }
    assert packets[..|packets|] == packets;
  }
}
