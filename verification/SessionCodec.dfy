/** The plaintext headers of session packets: a 53-byte routing header, extended to 77 bytes
for data packets, and the 24-byte cipher nonce. */
module SessionCodec {
  import opened Wrappers
  import opened Bytes

  const RELAY_MAGIC: seq<Byte> := [77, 76, 82, 49]  // "MLR1"
  const RELAY_SESSION_INIT: Byte := 10
  const RELAY_SESSION_RESPONSE: Byte := 11
  const RELAY_SESSION_DATA: Byte := 12
  const RELAY_DATA_HEADER_LEN := 53
  const SESSION_DATA_HEADER_LEN := RELAY_DATA_HEADER_LEN + 16 + 8

  datatype SessionError =
    | InvalidSessionPacket
    | SessionIdentityMismatch
    | SessionReplayDetected
    | AuthenticationFailed
    | StaleSessionHandshake
    | InvalidIdentityKey
    | InvalidSessionSignature
    | InvalidSessionKey

  datatype Routing = Routing(network: Uuid, source: Uuid, destination: Uuid)

  datatype DataHeader = DataHeader(routing: Routing, sessionId: Bytes16, sequence: U64)

  function RoutingHeader(kind: Byte, r: Routing): (h: seq<Byte>)
    ensures |h| == RELAY_DATA_HEADER_LEN
  {
    RELAY_MAGIC + [kind] + UuidBytes(r.network) + UuidBytes(r.source) + UuidBytes(r.destination)
  }

  function SessionDataHeader(d: DataHeader): (h: seq<Byte>)
    ensures |h| == SESSION_DATA_HEADER_LEN
  {
    RoutingHeader(RELAY_SESSION_DATA, d.routing) + d.sessionId + SequenceBytes(d.sequence)
  }

  function SessionNonce(sessionId: Bytes16, sequence: U64): (nonce: seq<Byte>)
    ensures |nonce| == 24
  {
    sessionId + SequenceBytes(sequence)
  }

  function ParseRoutingHeader(packet: seq<Byte>, expectedKind: Byte): Result<Routing, SessionError> {
    if |packet| < RELAY_DATA_HEADER_LEN || packet[..4] != RELAY_MAGIC || packet[4] != expectedKind then
      Err(InvalidSessionPacket)
    else
      Ok(Routing(UuidFrom(packet[5..21]), UuidFrom(packet[21..37]), UuidFrom(packet[37..53])))
  }

  /** Parsing the front of a data packet whose total length is `length`. */
  function ParseDataHeader(front: seq<Byte>, length: nat): Result<DataHeader, SessionError>
    requires |front| == SESSION_DATA_HEADER_LEN || |front| == length < SESSION_DATA_HEADER_LEN
  {
    if length < SESSION_DATA_HEADER_LEN + 16 then
      Err(InvalidSessionPacket)
    else
      match ParseRoutingHeader(front, RELAY_SESSION_DATA)
      case Err(e) => Err(e)
      case Ok(routing) => Ok(DataHeader(routing, front[53..69], SequenceFrom(front[69..77])))
  }

  lemma RoutingRoundTrip(kind: Byte, r: Routing, rest: seq<Byte>)
    ensures ParseRoutingHeader(RoutingHeader(kind, r) + rest, kind) == Ok(r)
    ensures forall other: Byte :: other != kind ==>
              ParseRoutingHeader(RoutingHeader(kind, r) + rest, other) == Err(InvalidSessionPacket)
  {
    var packet := RoutingHeader(kind, r) + rest;
    assert packet[..4] == RELAY_MAGIC;
    assert packet[5..21] == UuidBytes(r.network);
    assert packet[21..37] == UuidBytes(r.source);
    assert packet[37..53] == UuidBytes(r.destination);
    UuidRoundTrip(r.network);
    UuidRoundTrip(r.source);
    UuidRoundTrip(r.destination);
  }

  /** Where the fields of a data header stand: magic, kind, network, source, destination, session
      and sequence, each whole and in network byte order. */
  lemma HeaderLayout(kind: Byte, r: Routing, d: DataHeader)
    ensures var h := RoutingHeader(kind, r);
            && h[..4] == [0x4D, 0x4C, 0x52, 0x31] && h[4] == kind
            && h[5..21] == UuidBytes(r.network) && h[21..37] == UuidBytes(r.source) && h[37..] == UuidBytes(r.destination)
    ensures var h := SessionDataHeader(d);
            && h[..53] == RoutingHeader(12, d.routing) && h[53..69] == d.sessionId && h[69..] == SequenceBytes(d.sequence)
    ensures SessionNonce(d.sessionId, d.sequence) == d.sessionId + SequenceBytes(d.sequence)
  {
  }

  /** Parsing exactly: bytes parse to a routing if and only if they begin with its header. */
  lemma RoutingIsExact(packet: seq<Byte>, kind: Byte, r: Routing)
    ensures ParseRoutingHeader(packet, kind) == Ok(r) <==>
              |packet| >= RELAY_DATA_HEADER_LEN && packet[..RELAY_DATA_HEADER_LEN] == RoutingHeader(kind, r)
  {
    if |packet| >= RELAY_DATA_HEADER_LEN {
      var (front, rest) := (packet[..RELAY_DATA_HEADER_LEN], packet[RELAY_DATA_HEADER_LEN..]);
      assert packet == front + rest;
      if front == RoutingHeader(kind, r) {
        RoutingRoundTrip(kind, r, rest);
      }
      if ParseRoutingHeader(packet, kind) == Ok(r) {
        FromBigEndianRoundTrip(packet[5..21]);
        FromBigEndianRoundTrip(packet[21..37]);
        FromBigEndianRoundTrip(packet[37..53]);
        assert front == packet[..4] + [packet[4]] + packet[5..21] + packet[21..37] + packet[37..53];
      }
    }
  }

  /** The 77 bytes parse back to the five fields they were built from. */
  lemma DataHeaderRoundTrip(d: DataHeader, length: nat)
    requires length >= SESSION_DATA_HEADER_LEN + 16
    ensures ParseDataHeader(SessionDataHeader(d), length) == Ok(d)
  {
    var rest := d.sessionId + SequenceBytes(d.sequence);
    var h := SessionDataHeader(d);
    assert h == RoutingHeader(RELAY_SESSION_DATA, d.routing) + rest;
    RoutingRoundTrip(RELAY_SESSION_DATA, d.routing, rest);
    assert h[53..69] == d.sessionId;
    assert h[69..77] == SequenceBytes(d.sequence);
    SequenceRoundTrip(d.sequence);
  }

  /** A nonce is never shared by two sessions or by two sequences of one session. */
  lemma NonceInjective(s1: Bytes16, n1: U64, s2: Bytes16, n2: U64)
    requires SessionNonce(s1, n1) == SessionNonce(s2, n2)
    ensures s1 == s2 && n1 == n2
  {
    assert s1 == SessionNonce(s1, n1)[..16] == s2;
    assert SequenceBytes(n1) == SessionNonce(s1, n1)[16..] == SequenceBytes(n2);
    SequenceRoundTrip(n1);
    SequenceRoundTrip(n2);
  }

  /** `buffer[at..at + |bytes|].copy_from_slice(bytes)` */
  method CopyInto(buffer: array<Byte>, at: nat, bytes: seq<Byte>)
    requires at + |bytes| <= buffer.Length
    modifies buffer
    ensures buffer[..] == old(buffer[..at]) + bytes + old(buffer[at + |bytes|..])
  {
    var i := 0;
    while i < |bytes|
      invariant 0 <= i <= |bytes|
      invariant buffer[..at] == old(buffer[..at])
      invariant forall j :: 0 <= j < i ==> buffer[at + j] == bytes[j]
      invariant buffer[at + i..] == old(buffer[at + i..])
    {
      buffer[at + i] := bytes[i];
      i := i + 1;
    }
    assert buffer[at..at + |bytes|] == bytes;
    assert buffer[..] == buffer[..at] + buffer[at..at + |bytes|] + buffer[at + |bytes|..];
  }

  /** Copying at the end of what is filled so far extends it. */
  lemma Filled(before: seq<Byte>, front: seq<Byte>, was: seq<Byte>, bytes: seq<Byte>)
    requires |front| + |bytes| <= |was| && before == front + was[|front|..]
    ensures before[..|front|] + bytes + before[|front| + |bytes|..] == front + bytes + was[|front| + |bytes|..]
  {
    assert before[..|front|] == front;
    assert before[|front| + |bytes|..] == was[|front| + |bytes|..];
  }

  method Extend(header: array<Byte>, ghost front: seq<Byte>, ghost was: seq<Byte>, at: nat, bytes: seq<Byte>)
    requires |was| == header.Length && at == |front| && at + |bytes| <= |was|
    requires header[..] == front + was[at..]
    modifies header
    ensures header[..] == (front + bytes) + was[at + |bytes|..]
  {
    Filled(header[..], front, was, bytes);
    CopyInto(header, at, bytes);
  }

  method BuildRoutingHeader(header: array<Byte>, kind: Byte, r: Routing)
    requires header.Length >= RELAY_DATA_HEADER_LEN
    modifies header
    ensures header[..] == RoutingHeader(kind, r) + old(header[RELAY_DATA_HEADER_LEN..])
  {
    hide UuidBytes;
    ghost var was := header[..];
    var (n, s, d) := (UuidBytes(r.network), UuidBytes(r.source), UuidBytes(r.destination));
    ghost var front := RELAY_MAGIC + [kind];
    StartHeader(header, kind);
    Extend(header, front, was, 5, n);
    Extend(header, front + n, was, 21, s);
    Extend(header, front + n + s, was, 37, d);
  }

  method StartHeader(header: array<Byte>, kind: Byte)
    requires header.Length >= 5
    modifies header
    ensures header[..] == (RELAY_MAGIC + [kind]) + old(header[5..])
  {
    ghost var was := header[..];
    Extend(header, [], was, 0, RELAY_MAGIC);
    Extend(header, RELAY_MAGIC, was, 4, [kind]);
  }

  /** The array-filling builder produces the header the parser inverts. */
  method BuildSessionDataHeader(d: DataHeader) returns (header: array<Byte>)
    ensures fresh(header) && header[..] == SessionDataHeader(d)
  {
    header := new Byte[SESSION_DATA_HEADER_LEN](_ => 0);
    BuildRoutingHeader(header, RELAY_SESSION_DATA, d.routing);
    assert header[..53] == RoutingHeader(RELAY_SESSION_DATA, d.routing);
    CopyInto(header, 53, d.sessionId);
    assert header[..69] == RoutingHeader(RELAY_SESSION_DATA, d.routing) + d.sessionId;
    CopyInto(header, 69, SequenceBytes(d.sequence));
    assert header[..] == SessionDataHeader(d);
  }
}
