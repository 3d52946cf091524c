/** The standard Base64 alphabet with padding (section 4 of RFC 4648), strictly decoded. */
module Base64 {
  import opened Wrappers
  import opened Bytes

  type Sextet = n: nat | n < 64

  function Symbol(v: Sextet): char {
    if v < 26 then ('A' as int + v) as char
    else if v < 52 then ('a' as int + v - 26) as char
    else if v < 62 then ('0' as int + v - 52) as char
    else if v == 62 then '+'
    else '/'
  }

  function Value(c: char): Option<Sextet> {
    if 'A' <= c <= 'Z' then Some(c as int - 'A' as int)
    else if 'a' <= c <= 'z' then Some(c as int - 'a' as int + 26)
    else if '0' <= c <= '9' then Some(c as int - '0' as int + 52)
    else if c == '+' then Some(62)
    else if c == '/' then Some(63)
    else None
  }

  predicate Base64Char(c: char) {
    'a' <= c <= 'z' || 'A' <= c <= 'Z' || '0' <= c <= '9' || c == '+' || c == '/' || c == '='
  }

  lemma SymbolValue(v: Sextet)
    ensures Value(Symbol(v)) == Some(v) && Base64Char(Symbol(v)) && Symbol(v) != '='
  {
  }

  lemma ValueSymbol(c: char)
    requires Value(c).Some?
    ensures Symbol(Value(c).value) == c
  {
  }

  /** The alphabet of table 1 of RFC 4648: A to Z, a to z, 0 to 9, plus and slash, in this order. */
  lemma SymbolsFollowTheTable(v: Sextet)
    ensures Symbol(0) == 'A' && Symbol(25) == 'Z' && Symbol(26) == 'a' && Symbol(51) == 'z'
    ensures Symbol(52) == '0' && Symbol(61) == '9' && Symbol(62) == '+' && Symbol(63) == '/'
    ensures v !in {25, 51, 61, 62, 63} ==> Symbol(v + 1) as int == Symbol(v) as int + 1
  {
  }

  /** One to three bytes as four characters. */
  function EncodeGroup(b: seq<Byte>): (r: string)
    requires 1 <= |b| <= 3
    ensures |r| == 4
  {
    var (b1, b2) := (if |b| > 1 then b[1] else 0, if |b| > 2 then b[2] else 0);
    [Symbol(b[0] / 4), Symbol(b[0] % 4 * 16 + b1 / 16),
     if |b| > 1 then Symbol(b1 % 16 * 4 + b2 / 64) else '=',
     if |b| > 2 then Symbol(b2 % 64) else '=']
  }

  function Encode(b: seq<Byte>): string {
    if b == [] then ""
    else if |b| <= 3 then EncodeGroup(b)
    else EncodeGroup(b[..3]) + Encode(b[3..])
  }

  function First(a: Sextet, b: Sextet): Byte { var v: nat := a * 4 + b / 16; v }
  function Second(b: Sextet, c: Sextet): Byte { var v: nat := b % 16 * 16 + c / 4; v }
  function Third(c: Sextet, d: Sextet): Byte { var v: nat := c % 4 * 64 + d; v }

  /** Four characters as one to three bytes.  Padding stands only at the very end, and the
      bits it leaves over are zero. */
  function DecodeGroup(q: string, last: bool): (r: Option<seq<Byte>>)
    requires |q| == 4
    ensures r.Some? ==> 1 <= |r.value| <= 3 && (!last ==> |r.value| == 3)
  {
    match (Value(q[0]), Value(q[1]), Value(q[2]), Value(q[3]))
    case (Some(a), Some(b), Some(c), Some(d)) => Some([First(a, b), Second(b, c), Third(c, d)])
    case (Some(a), Some(b), Some(c), None) =>
      if last && q[3] == '=' && c % 4 == 0 then Some([First(a, b), Second(b, c)]) else None
    case (Some(a), Some(b), None, None) =>
      if last && q[2] == '=' && q[3] == '=' && b % 16 == 0 then Some([First(a, b)]) else None
    case _ => None
  }

  function Decode(s: string): Option<seq<Byte>> {
    if s == "" then Some([])
    else if |s| < 4 then None
    else if |s| == 4 then DecodeGroup(s, true)
    else
      match (DecodeGroup(s[..4], false), Decode(s[4..]))
      case (Some(head), Some(tail)) => Some(head + tail)
      case _ => None
  }

  lemma NoPadValue()
    ensures Value('=').None?
  {
  }

  /** The sextets of a group of bytes, and the bytes back. */
  lemma Packed(x: Byte, y: Byte, z: Byte)
    ensures x % 4 * 16 + y / 16 < 64 && y % 16 * 4 + z / 64 < 64
    ensures First(x / 4, x % 4 * 16 + y / 16) == x
    ensures Second(x % 4 * 16 + y / 16, y % 16 * 4 + z / 64) == y
    ensures Third(y % 16 * 4 + z / 64, z % 64) == z
  {
  }

  lemma DecodeSymbols(a: Sextet, b: Sextet, c: Sextet, d: Sextet, last: bool)
    ensures DecodeGroup([Symbol(a), Symbol(b), Symbol(c), Symbol(d)], last) == Some([First(a, b), Second(b, c),
        Third(c, d)])
    ensures c % 4 == 0 ==> DecodeGroup([Symbol(a), Symbol(b), Symbol(c), '='], true) == Some([First(a, b), Second(b,
        c)])
    ensures b % 16 == 0 ==> DecodeGroup([Symbol(a), Symbol(b), '=', '='], true) == Some([First(a, b)])
  {
    SymbolValue(a);
    SymbolValue(b);
    SymbolValue(c);
    SymbolValue(d);
    NoPadValue();
    hide Symbol, Value, First, Second, Third;
  }

  /** The four characters of a group, from its sextets. */
  lemma GroupText(b: seq<Byte>, x: Byte, y: Byte, z: Byte, s0: Sextet, s1: Sextet, s2: Sextet, s3: Sextet)
    requires s0 == x / 4 && s1 == x % 4 * 16 + y / 16 && s2 == y % 16 * 4 + z / 64 && s3 == z % 64
    ensures b == [x, y, z] ==> EncodeGroup(b) == [Symbol(s0), Symbol(s1), Symbol(s2), Symbol(s3)]
    ensures b == [x, y] && z == 0 ==> EncodeGroup(b) == [Symbol(s0), Symbol(s1), Symbol(s2), '='] && s2 % 4 == 0
    ensures b == [x] && y == z == 0 ==> EncodeGroup(b) == [Symbol(s0), Symbol(s1), '=', '='] && s1 % 16 == 0
  {
    hide Symbol;
  }

  lemma GroupRoundTrip(b: seq<Byte>, last: bool)
    requires 1 <= |b| <= 3 && (last || |b| == 3)
    ensures DecodeGroup(EncodeGroup(b), last) == Some(b)
  {
    hide DecodeGroup, EncodeGroup, Symbol, First, Second, Third;
    var (x, y, z) := (b[0], if |b| > 1 then b[1] else 0, if |b| > 2 then b[2] else 0);
    Packed(x, y, z);
    var (s0, s1, s2, s3) := (x / 4, x % 4 * 16 + y / 16, y % 16 * 4 + z / 64, z % 64);
    GroupText(b, x, y, z, s0, s1, s2, s3);
    DecodeSymbols(s0, s1, s2, s3, last);
    assert |b| == 1 ==> b == [x];
    assert |b| == 2 ==> b == [x, y];
    assert |b| == 3 ==> b == [x, y, z];
  }

  lemma GroupChars(b: seq<Byte>)
    requires 1 <= |b| <= 3
    ensures forall i :: 0 <= i < 4 ==> Base64Char(EncodeGroup(b)[i])
  {
    forall v: Sextet ensures Base64Char(Symbol(v)) {
      SymbolValue(v);
    }
    hide Symbol;
  }

  /** A full group of characters and its bytes are the same 24-bit number, most significant first. */
  lemma GroupIsNumber(x: Byte, y: Byte, z: Byte)
    ensures var q := EncodeGroup([x, y, z]);
            && Value(q[0]).Some? && Value(q[1]).Some? && Value(q[2]).Some? && Value(q[3]).Some?
            && x * 65_536 + y * 256 + z ==
                 Value(q[0]).value * 262_144 + Value(q[1]).value * 4096 + Value(q[2]).value * 64 + Value(q[3]).value
  {
    var (s0, s1, s2, s3) := (x / 4, x % 4 * 16 + y / 16, y % 16 * 4 + z / 64, z % 64);
    Packed(x, y, z);
    GroupText([x, y, z], x, y, z, s0, s1, s2, s3);
    SymbolValue(s0);
    SymbolValue(s1);
    SymbolValue(s2);
    SymbolValue(s3);
    hide EncodeGroup, Symbol, Value;
  }

  /** Decoding undoes encoding. */
  lemma {:induction false} DecodeEncode(b: seq<Byte>)
    ensures Decode(Encode(b)) == Some(b)
    ensures forall i :: 0 <= i < |Encode(b)| ==> Base64Char(Encode(b)[i])
    ensures Encode(b) == "" <==> b == []
  {
    if b != [] && |b| <= 3 {
      GroupRoundTrip(b, true);
      GroupChars(b);
    } else if b != [] {
      GroupRoundTrip(b[..3], false);
      GroupChars(b[..3]);
      DecodeEncode(b[3..]);
      var s := Encode(b);
      assert s[..4] == EncodeGroup(b[..3]) && s[4..] == Encode(b[3..]);
      assert b == b[..3] + b[3..];
    }
  }

  lemma GroupCanonical(q: string, last: bool)
    requires |q| == 4 && DecodeGroup(q, last).Some?
    ensures EncodeGroup(DecodeGroup(q, last).value) == q
  {
    hide Symbol, Value;
    var b := DecodeGroup(q, last).value;
    ValueSymbol(q[0]);
    ValueSymbol(q[1]);
    var (v0, v1) := (Value(q[0]).value, Value(q[1]).value);
    if |b| > 1 {
      ValueSymbol(q[2]);
    }
    if |b| > 2 {
      ValueSymbol(q[3]);
    }
    Unpacked(v0, v1, if |b| > 1 then Value(q[2]).value else 0, if |b| > 2 then Value(q[3]).value else 0);
    assert EncodeGroup(b)[0] == q[0] && EncodeGroup(b)[1] == q[1];
    assert EncodeGroup(b)[2] == q[2] && EncodeGroup(b)[3] == q[3];
  }

  lemma Unpacked(a: Sextet, b: Sextet, c: Sextet, d: Sextet)
    ensures var (x, y, z) := (a * 4 + b / 16, b % 16 * 16 + c / 4, c % 4 * 64 + d);
            && x / 4 == a && x % 4 * 16 + y / 16 == b && y % 16 * 4 + z / 64 == c && z % 64 == d
            && x % 4 * 16 + 0 / 16 == b - b % 16 && y % 16 * 4 + 0 / 64 == c - c % 4
  {
  }

  /** Strict decoding accepts only what encoding prints: encoding undoes decoding. */
  lemma {:induction false} EncodeDecode(s: string)
    requires Decode(s).Some?
    ensures Encode(Decode(s).value) == s
    ensures s == "" <==> Decode(s).value == []
  {
    if s == "" {
    } else if |s| == 4 {
      GroupCanonical(s, true);
    } else {
      GroupCanonical(s[..4], false);
      EncodeDecode(s[4..]);
      var (head, tail) := (DecodeGroup(s[..4], false).value, Decode(s[4..]).value);
      assert (head + tail)[..3] == head && (head + tail)[3..] == tail;
      assert s == s[..4] + s[4..];
    }
  }
}
