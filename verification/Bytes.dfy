/** Bytes, big-endian numbers and 128-bit identifiers. */
module Bytes {
  import opened Wrappers
  import opened Words

  type Byte = n: nat | n < 256

  /** 2 to the power 128. */
  const UUID_RANGE: nat := 0x1_0000_0000_0000_0000_0000_0000_0000_0000

  /** A UUID as the number its sixteen bytes spell, most significant byte first.  Comparing
      two of them byte by byte is comparing the numbers. */
  type Uuid = n: nat | n < UUID_RANGE

  const NIL_UUID: Uuid := 0

  /** A fixed array of sixteen bytes: a session identifier or a nonce. */
  type Bytes16 = b: seq<Byte> | |b| == 16 witness seq(16, _ => 0)

  /** A network's traffic key as it is generated: thirty-two bytes. */
  type NetworkKey = k: seq<Byte> | |k| == 32 witness seq(32, _ => 0)

  function BigEndian(n: nat, size: nat): (r: seq<Byte>)
    ensures |r| == size
  {
    if size == 0 then [] else BigEndian(n / 256, size - 1) + [n % 256]
  }

  function FromBigEndian(bytes: seq<Byte>): nat {
    if |bytes| == 0 then 0
    else 256 * FromBigEndian(bytes[..|bytes| - 1]) + bytes[|bytes| - 1]
  }

  lemma EightMore(n: nat)
    ensures Pow2(8 * (n + 1)) == 256 * Pow2(8 * n)
  {
    assert Pow2(4) == 16;
    Pow2Add(4, 4);
    Pow2Add(8, 8 * n);
  }

  /** A number that fits survives the trip through its bytes. */
  lemma {:induction false} BigEndianRoundTrip(n: nat, size: nat)
    requires n < Pow2(8 * size)
    ensures FromBigEndian(BigEndian(n, size)) == n
  {
    if size == 0 {
    } else {
      EightMore(size - 1);
      BigEndianRoundTrip(n / 256, size - 1);
      var bytes := BigEndian(n, size);
      assert bytes[..size - 1] == BigEndian(n / 256, size - 1);
    }
  }

  /** Bytes survive the trip through their number, which always fits. */
  lemma {:induction false} FromBigEndianRoundTrip(bytes: seq<Byte>)
    ensures FromBigEndian(bytes) < Pow2(8 * |bytes|)
    ensures BigEndian(FromBigEndian(bytes), |bytes|) == bytes
  {
    if |bytes| > 0 {
      var front, last := bytes[..|bytes| - 1], bytes[|bytes| - 1];
      EightMore(|front|);
      FromBigEndianRoundTrip(front);
      assert bytes == front + [last];
      assert (256 * FromBigEndian(front) + last) / 256 == FromBigEndian(front);
    }
  }

  lemma DivideTwice(n: nat, p: nat)
    requires p >= 1
    ensures n / 256 / p == n / (256 * p)
  {
    var q := n / (256 * p);
    var r := n % (256 * p);
    assert n == 256 * p * q + r;
    assert r / 256 < p;
    assert n / 256 == p * q + r / 256 by {
      assert n == 256 * (p * q) + r;
    }
    RemainderOf(p, q, r / 256);
  }

  /** The most significant byte comes first. */
  lemma {:induction false} BigEndianDigit(n: nat, size: nat, i: nat)
    requires i < size
    ensures BigEndian(n, size)[i] == n / Pow2(8 * (size - 1 - i)) % 256
    decreases size
  {
    if i == size - 1 {
    } else {
      BigEndianDigit(n / 256, size - 1, i);
      EightMore(size - 2 - i);
      DivideTwice(n, Pow2(8 * (size - 2 - i)));
    }
  }

  lemma UuidRange(n: nat)
    requires n == 16
    ensures Pow2(8 * n) == UUID_RANGE
  {
    WordRange(4 * n);
    Pow2Square(4 * n, U64_MAX + 1);
  }

  lemma SequenceRange(n: nat)
    requires n == 8
    ensures Pow2(8 * n) == U64_MAX + 1
  {
    WordRange(8 * n);
  }

  function UuidBytes(id: Uuid): (r: seq<Byte>)
    ensures |r| == 16
  {
    BigEndian(id, 16)
  }

  function UuidFrom(bytes: seq<Byte>): Uuid
    requires |bytes| == 16
  {
    FromBigEndianRoundTrip(bytes);
    UuidRange(|bytes|);
    FromBigEndian(bytes)
  }

  function SequenceBytes(sequence: U64): (r: seq<Byte>)
    ensures |r| == 8
  {
    BigEndian(sequence, 8)
  }

  function SequenceFrom(bytes: seq<Byte>): U64
    requires |bytes| == 8
  {
    FromBigEndianRoundTrip(bytes);
    SequenceRange(|bytes|);
    FromBigEndian(bytes)
  }

  lemma UuidRoundTrip(id: Uuid)
    ensures UuidFrom(UuidBytes(id)) == id
  {
    var size := 16;
    UuidRange(size);
    BigEndianRoundTrip(id, size);
  }

  lemma SequenceRoundTrip(sequence: U64)
    ensures SequenceFrom(SequenceBytes(sequence)) == sequence
  {
    var size := 8;
    SequenceRange(size);
    BigEndianRoundTrip(sequence, size);
  }
}
