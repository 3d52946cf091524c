/** The PEM bundle of TLS roots (section 2 of RFC 7468): reading, and printing in canonical form. */
module PemBundle {
  import opened Wrappers
  import opened Bytes
  import opened Base64
  import opened Domains
  import opened Lexicographic
  import opened Sorting

  type Der = seq<Byte>

  const BEGIN := "-----BEGIN CERTIFICATE-----"
  const END := "-----END CERTIFICATE-----"
  const MAX_PEM_BYTES := 64 * 1024
  const LINE_LENGTH := 64

  datatype PemError =
    | BadLength | NestedBlock | UnmatchedEnd | EmptyBlock | BadBase64 | DataOutside | BadCharacters
    | MissingEnd | NoCertificates | BadCertificate

  datatype NormalizedTlsCa = NormalizedTlsCa(pem: string, ders: seq<Der>)

  /** The length in UTF-8 bytes. */
  function Utf8Length(s: string): nat {
    if s == "" then 0
    else
      var n := s[0] as int;
      (if n < 0x80 then 1 else if n < 0x800 then 2 else if n < 0x1_0000 then 3 else 4) + Utf8Length(s[1..])
  }

  // ----- Reading

  /** The open block, if any, and the certificates so far. */
  datatype Reader = Reader(current: Option<string>, ders: seq<Der>)

  predicate AllBase64(s: string) {
    forall i :: 0 <= i < |s| ==> Base64Char(s[i])
  }

  /** One trimmed line. */
  function Feed(r: Reader, line: string): Result<Reader, PemError> {
    if line == BEGIN then
      if r.current.Some? then Err(NestedBlock) else Ok(r.(current := Some("")))
    else if line == END then
      match r.current
      case None => Err(UnmatchedEnd)
      case Some(encoded) =>
        if encoded == "" then Err(EmptyBlock)
        else
          (match Decode(encoded)
           case None => Err(BadBase64)
           case Some(der) => Ok(Reader(None, r.ders + [der])))
    else if line == "" then Ok(r)
    else
      match r.current
      case None => Err(DataOutside)
      case Some(encoded) =>
        if !AllBase64(line) then Err(BadCharacters) else Ok(r.(current := Some(encoded + line)))
  }

  /** How many characters stand before the first line feed. */
  function LineEnd(s: string): (n: nat)
    ensures n <= |s| && '\n' !in s[..n] && (n < |s| ==> s[n] == '\n')
  {
    if s == "" || s[0] == '\n' then 0
    else
      var n := LineEnd(s[1..]);
      assert s[..n + 1] == [s[0]] + s[1..][..n];
      n + 1
  }

  /** Every line in turn.  A carriage return before the line feed is trimmed with the rest. */
  function FeedText(r: Reader, s: string): Result<Reader, PemError>
    decreases |s|
  {
    if s == "" then Ok(r)
    else
      var n := LineEnd(s);
      match Feed(r, Trim(s[..n]))
      case Err(e) => Err(e)
      case Ok(r') => if n == |s| then Ok(r') else FeedText(r', s[n + 1..])
  }

  /** The rest of a text after a line. */
  function FeedOn(fed: Result<Reader, PemError>, rest: string): Result<Reader, PemError> {
    match fed
    case Err(e) => Err(e)
    case Ok(r) => FeedText(r, rest)
  }

  /** The certificates of a bundle, in the order of the text. */
  function ReadPem(pem: string): Result<seq<Der>, PemError> {
    if pem == "" || Utf8Length(pem) > MAX_PEM_BYTES then Err(BadLength)
    else
      match FeedText(Reader(None, []), pem)
      case Err(e) => Err(e)
      case Ok(r) =>
        if r.current.Some? then Err(MissingEnd)
        else if r.ders == [] then Err(NoCertificates)
        else Ok(r.ders)
  }

  // ----- Printing

  function Chunks(encoded: string): string {
    if |encoded| <= LINE_LENGTH then (if encoded == "" then "" else encoded + "\n")
    else encoded[..LINE_LENGTH] + "\n" + Chunks(encoded[LINE_LENGTH..])
  }

  function Block(der: Der): string {
    BEGIN + "\n" + Chunks(Encode(der)) + END + "\n"
  }

  function PrintPem(ders: seq<Der>): string {
    if ders == [] then "" else Block(ders[0]) + PrintPem(ders[1..])
  }

  predicate DerLe(a: Der, b: Der) {
    LexLe(a, b)
  }

  function Canonical(ders: seq<Der>): seq<Der> {
    Dedup(Sort(DerLe, ders))
  }

  /** `normalize_tls_ca_pem`, for a given test of a bundle of X.509 certificates. */
  function Normalize(valid: seq<Der> -> bool, pem: string): Result<NormalizedTlsCa, PemError> {
    match ReadPem(pem)
    case Err(e) => Err(e)
    case Ok(ders) =>
      var canonical := Canonical(ders);
      if !valid(canonical) then Err(BadCertificate)
      else Ok(NormalizedTlsCa(PrintPem(canonical), canonical))
  }

  // ----- Reading back what was printed

  lemma TrimKeeps(s: string)
    requires s != "" ==> !IsWhitespace(s[0]) && !IsWhitespace(s[|s| - 1])
    ensures Trim(s) == s
  {
  }

  lemma LineEndOf(line: string, rest: string)
    requires '\n' !in line
    ensures LineEnd(line + "\n" + rest) == |line|
  {
    var s := line + "\n" + rest;
    var n := LineEnd(s);
    assert s[|line|] == '\n' && s[..|line|] == line;
  }

  lemma FeedLine(r: Reader, line: string, rest: string)
    requires '\n' !in line && Trim(line) == line
    ensures FeedText(r, line + "\n" + rest) == FeedOn(Feed(r, line), rest)
  {
    var s := line + "\n" + rest;
    LineEndOf(line, rest);
    assert s[..|line|] == line && s[|line| + 1..] == rest;
  }

  /** A chunk of Base64 text is a line that the reader takes as it stands. */
  lemma FeedChunk(current: string, ders: seq<Der>, chunk: string, rest: string)
    requires chunk != "" && AllBase64(chunk)
    ensures FeedText(Reader(Some(current), ders), chunk + "\n" + rest) == FeedText(Reader(Some(current + chunk),
        ders), rest)
  {
    assert Base64Char(chunk[0]) && Base64Char(chunk[|chunk| - 1]);
    assert !Base64Char('\n');
    assert chunk[0] != BEGIN[0] && chunk[0] != END[0];
    TrimKeeps(chunk);
    FeedLine(Reader(Some(current), ders), chunk, rest);
  }

  lemma {:induction false} FeedChunks(current: string, ders: seq<Der>, encoded: string, rest: string)
    requires AllBase64(encoded)
    ensures FeedText(Reader(Some(current), ders), Chunks(encoded) + rest) == FeedText(Reader(Some(current + encoded),
        ders), rest)
    decreases |encoded|
  {
    hide FeedText;
    if encoded == "" {
      assert Chunks(encoded) + rest == rest && current + encoded == current;
    } else if |encoded| <= LINE_LENGTH {
      FeedChunk(current, ders, encoded, rest);
    } else {
      var (head, tail) := (encoded[..LINE_LENGTH], encoded[LINE_LENGTH..]);
      assert Chunks(encoded) + rest == head + "\n" + (Chunks(tail) + rest);
      FeedChunk(current, ders, head, Chunks(tail) + rest);
      FeedChunks(current + head, ders, tail, rest);
      assert current + head + tail == current + encoded;
    }
  }

  lemma MarkerLines()
    ensures Trim(BEGIN) == BEGIN && Trim(END) == END && '\n' !in BEGIN && '\n' !in END
    ensures BEGIN != END
  {
    TrimKeeps(BEGIN);
    TrimKeeps(END);
    assert BEGIN[5] == 'B' && END[5] == 'E';
  }

  lemma FeedBlock(ders: seq<Der>, der: Der, rest: string)
    requires der != []
    ensures FeedText(Reader(None, ders), Block(der) + rest) == FeedText(Reader(None, ders + [der]), rest)
  {
    MarkerLines();
    DecodeEncode(der);
    hide FeedText, Trim, Chunks, Decode, Encode;
    var encoded := Encode(der);
    var tail := END + "\n" + rest;
    assert Block(der) + rest == BEGIN + "\n" + (Chunks(encoded) + tail);
    FeedLine(Reader(None, ders), BEGIN, Chunks(encoded) + tail);
    FeedChunks("", ders, encoded, tail);
    assert "" + encoded == encoded;
    FeedLine(Reader(Some(encoded), ders), END, rest);
  }

  lemma FeedFirst(before: seq<Der>, ders: seq<Der>)
    requires ders != [] && ders[0] != []
    ensures FeedText(Reader(None, before), PrintPem(ders)) == FeedText(Reader(None, before + [ders[0]]),
        PrintPem(ders[1..]))
  {
    hide FeedText, Block;
    FeedBlock(before, ders[0], PrintPem(ders[1..]));
  }

  lemma FeedNothing(r: Reader)
    ensures FeedText(r, PrintPem([])) == Ok(r)
  {
  }

  lemma {:induction false} FeedPrinted(before: seq<Der>, ders: seq<Der>)
    requires forall i :: 0 <= i < |ders| ==> ders[i] != []
    ensures FeedText(Reader(None, before), PrintPem(ders)) == Ok(Reader(None, before + ders))
    decreases |ders|
  {
    hide FeedText, PrintPem;
    if ders == [] {
      FeedNothing(Reader(None, before));
      assert before + ders == before;
    } else {
      FeedFirst(before, ders);
      FeedPrinted(before + [ders[0]], ders[1..]);
      assert before + [ders[0]] + ders[1..] == before + ders;
    }
  }

  // ----- What reading yields

  ghost predicate NoneEmpty(ders: seq<Der>) {
    forall i :: 0 <= i < |ders| ==> ders[i] != []
  }

  lemma {:induction false} FeedKeepsNoneEmpty(r: Reader, s: string)
    requires NoneEmpty(r.ders) && FeedText(r, s).Ok?
    ensures NoneEmpty(FeedText(r, s).value.ders)
    decreases |s|
  {
    if s == "" {
    } else {
      var n := LineEnd(s);
      var line := Trim(s[..n]);
      assert NoneEmpty(Feed(r, line).value.ders) by {
        if line == END && Decode(r.current.value).Some? {
          EncodeDecode(r.current.value);
        }
      }
      if n < |s| {
        FeedKeepsNoneEmpty(Feed(r, line).value, s[n + 1..]);
      }
    }
  }

  /** Canonical lists are sorted without repetition, and hold the same certificates. */
  lemma CanonicalFacts(ders: seq<Der>)
    ensures Sorted(DerLe, Canonical(ders)) && Distinct(Canonical(ders)) && TotalOrder(DerLe)
    ensures forall x :: x in Canonical(ders) <==> x in ders
  {
    DerIsTotalOrder();
    SortFacts(DerLe, ders);
    SortSorts(DerLe, ders);
    DedupDistinct(DerLe, Sort(DerLe, ders));
    DedupFacts(Sort(DerLe, ders));
  }

  lemma DerIsTotalOrder()
    ensures TotalOrder(DerLe)
  {
    forall a: Der, b: Der ensures DerLe(a, b) || DerLe(b, a) {
      LexTotal(a, b);
    }
    forall a: Der, b: Der | DerLe(a, b) && DerLe(b, a) ensures a == b {
      LexAntisymmetric(a, b);
    }
    forall a: Der, b: Der, c: Der | DerLe(a, b) && DerLe(b, c) ensures DerLe(a, c) {
      LexTransitive(a, b, c);
    }
  }

  lemma CanonicalFixed(ders: seq<Der>)
    ensures Canonical(Canonical(ders)) == Canonical(ders)
  {
    CanonicalFacts(ders);
    SortFixed(DerLe, Canonical(ders));
    DedupFixed(Canonical(ders));
  }

  /** Printing and reading back: any nonempty list of certificates survives, as long as the
      text is within the limit. */
  lemma ReadPrinted(ders: seq<Der>)
    requires ders != [] && NoneEmpty(ders)
    ensures PrintPem(ders) != ""
    ensures ReadPem(PrintPem(ders)) == if Utf8Length(PrintPem(ders)) > MAX_PEM_BYTES then Err(BadLength) else Ok(ders)
  {
    FeedPrinted([], ders);
    assert [] + ders == ders;
    hide FeedText, Utf8Length;
  }

  /** Normalizing is canonical: normalizing the result again gives the same result, exactly
      when that result is within the limit. */
  lemma NormalizeIdempotent(valid: seq<Der> -> bool, pem: string)
    requires Normalize(valid, pem).Ok?
    ensures var n := Normalize(valid, pem).value;
            Normalize(valid, n.pem) == if Utf8Length(n.pem) <= MAX_PEM_BYTES then Ok(n) else Err(BadLength)
  {
    var ders := ReadPem(pem).value;
    var canonical := Canonical(ders);
    FeedKeepsNoneEmpty(Reader(None, []), pem);
    CanonicalFacts(ders);
    assert ders[0] in canonical;
    forall i | 0 <= i < |canonical| ensures canonical[i] != [] {
      assert canonical[i] in ders;
    }
    ReadPrinted(canonical);
    CanonicalFixed(ders);
  }

  /** A set of certificates has one canonical list. */
  lemma CanonicalBySet(x: seq<Der>, y: seq<Der>)
    ensures Canonical(x) == Canonical(y) <==> Elements(x) == Elements(y)
  {
    CanonicalFacts(x);
    CanonicalFacts(y);
    if Elements(x) == Elements(y) {
      forall d ensures d in Canonical(x) <==> d in Canonical(y) {
        assert d in x <==> d in Elements(x);
        assert d in y <==> d in Elements(y);
      }
      SortedUnique(DerLe, Canonical(x), Canonical(y));
    }
    if Canonical(x) == Canonical(y) {
      forall d ensures d in Elements(x) <==> d in Elements(y) {
        assert d in Canonical(x) <==> d in Canonical(y);
      }
    }
  }

  /** The result depends on the set of certificates alone, not on their order or repetition. */
  lemma NormalizeBySet(valid: seq<Der> -> bool, a: string, b: string)
    requires Normalize(valid, a).Ok? && Normalize(valid, b).Ok?
    ensures Normalize(valid, a) == Normalize(valid, b) <==> Elements(ReadPem(a).value) == Elements(ReadPem(b).value)
    ensures Normalize(valid, a).value.ders == Normalize(valid, b).value.ders <==>
            Elements(ReadPem(a).value) == Elements(ReadPem(b).value)
  {
    CanonicalBySet(ReadPem(a).value, ReadPem(b).value);
    hide ReadPem, Canonical, PrintPem;
  }

  // ----- Choosing between two bundles

  datatype SelectError = Conflict

  function SelectEffective(invitation: Option<NormalizedTlsCa>, commandLine: Option<NormalizedTlsCa>)
    : Result<Option<NormalizedTlsCa>, SelectError>
  {
    match (invitation, commandLine)
    case (None, None) => Ok(None)
    case (Some(ca), None) => Ok(Some(ca))
    case (None, Some(ca)) => Ok(Some(ca))
    case (Some(a), Some(b)) => if a.ders == b.ders then Ok(Some(a)) else Err(Conflict)
  }

  /** Two bundles are accepted together exactly when they hold the same set of certificates,
      and then it does not matter which of them is used. */
  lemma SelectIffSameSet(valid: seq<Der> -> bool, a: string, b: string)
    requires Normalize(valid, a).Ok? && Normalize(valid, b).Ok?
    ensures var (x, y) := (Normalize(valid, a).value, Normalize(valid, b).value);
            && (SelectEffective(Some(x), Some(y)).Ok? <==> Elements(ReadPem(a).value) == Elements(ReadPem(b).value))
            && (SelectEffective(Some(x), Some(y)).Ok? ==>
                  SelectEffective(Some(x), Some(y)) == SelectEffective(Some(y), Some(x)) == Ok(Some(x)))
  {
    NormalizeBySet(valid, a, b);
    hide Normalize;
  }

  // ----- The loops

  /** `normalize_tls_ca_pem` as it is written: one loop over the lines, one over the
      certificates with one over their chunks inside. */
  method NormalizeTlsCaPem(valid: seq<Der> -> bool, pem: string) returns (result: Result<NormalizedTlsCa, PemError>)
    ensures result == Normalize(valid, pem)
  {
    if pem == "" || Utf8Length(pem) > MAX_PEM_BYTES {
      return Err(BadLength);
    }
    var current: Option<string> := None;
    var ders: seq<Der> := [];
    var text := pem;
    while text != ""
      invariant FeedText(Reader(current, ders), text) == FeedText(Reader(None, []), pem)
      decreases |text|
    {
      var n := LineEnd(text);
      var line := Trim(text[..n]);
      if line == BEGIN {
        if current.Some? {
          return Err(NestedBlock);
        }
        current := Some("");
      } else if line == END {
        if current.None? {
          return Err(UnmatchedEnd);
        }
        var encoded := current.value;
        current := None;
        if encoded == "" {
          return Err(EmptyBlock);
        }
        var der := Decode(encoded);
        if der.None? {
          return Err(BadBase64);
        }
        ders := ders + [der.value];
      } else if line != "" {
        if current.None? {
          return Err(DataOutside);
        }
        if !AllBase64(line) {
          return Err(BadCharacters);
        }
        current := Some(current.value + line);
      }
      text := if n == |text| then "" else text[n + 1..];
    }
    if current.Some? {
      return Err(MissingEnd);
    }
    if ders == [] {
      return Err(NoCertificates);
    }
    var canonical := Canonical(ders);
    if !valid(canonical) {
      return Err(BadCertificate);
    }
    var normalized := PrintAll(canonical);
    return Ok(NormalizedTlsCa(normalized, canonical));
  }

  method PrintAll(ders: seq<Der>) returns (normalized: string)
    ensures normalized == PrintPem(ders)
  {
    hide Block;
    normalized := "";
    for k := 0 to |ders|
      invariant normalized + PrintPem(ders[k..]) == PrintPem(ders)
    {
      assert ders[k..][0] == ders[k] && ders[k..][1..] == ders[k + 1..];
      var block := PrintBlock(ders[k]);
      normalized := normalized + block;
    }
  }

  method PrintBlock(der: Der) returns (block: string)
    ensures block == Block(der)
  {
    block := BEGIN + "\n";
    ghost var head := block;
    var encoded := Encode(der);
    while encoded != ""
      invariant block + Chunks(encoded) == head + Chunks(Encode(der))
      decreases |encoded|
    {
      var n := if |encoded| < LINE_LENGTH then |encoded| else LINE_LENGTH;
      Chunked(encoded, n);
      block := block + (encoded[..n] + "\n");
      encoded := encoded[n..];
    }
    block := block + END + "\n";
  }

  lemma Chunked(encoded: string, n: nat)
    requires encoded != "" && n == if |encoded| < LINE_LENGTH then |encoded| else LINE_LENGTH
    ensures Chunks(encoded) == (encoded[..n] + "\n") + Chunks(encoded[n..])
  {
    if |encoded| <= LINE_LENGTH {
      assert encoded[..n] == encoded && encoded[n..] == "";
    }
  }
}
