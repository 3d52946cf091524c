/** Every way a PEM bundle can be laid out, and that exactly these are read. */
module PemLayouts {
  import opened Wrappers
  import opened Base64
  import opened Domains
  import opened PemBundle
  import opened Sorting

  // ----- Lines

  /** One line of text: what it says, the blanks around it, and a carriage return or not. */
  datatype Row = Row(lead: string, body: string, trail: string, crlf: bool)

  ghost predicate RowOk(row: Row) {
    && Blank(row.lead) && Blank(row.trail) && Bare(row.body)
    && '\n' !in row.lead && '\n' !in row.body && '\n' !in row.trail
  }

  function RowText(row: Row): string {
    row.lead + row.body + row.trail + if row.crlf then "\r" else ""
  }

  /** The rows as a text whose last line ends with a line feed or not. */
  function Text(rows: seq<Row>, terminated: bool): string {
    if rows == [] then ""
    else if |rows| == 1 then RowText(rows[0]) + if terminated then "\n" else ""
    else RowText(rows[0]) + "\n" + Text(rows[1..], terminated)
  }

  /** What the rows say, blank ones left out. */
  function Bodies(rows: seq<Row>): seq<string> {
    if rows == [] then [] else (if rows[0].body == "" then [] else [rows[0].body]) + Bodies(rows[1..])
  }

  // ----- Blocks

  function Joined(pieces: seq<string>): string {
    if pieces == [] then "" else pieces[0] + Joined(pieces[1..])
  }

  /** The lines of blocks whose Base64 text is cut into the given pieces. */
  function BlockLines(cuts: seq<seq<string>>): seq<string> {
    if cuts == [] then [] else [BEGIN] + cuts[0] + [END] + BlockLines(cuts[1..])
  }

  /** The pieces are the Base64 text of a certificate, cut anywhere. */
  ghost predicate CutOf(pieces: seq<string>, der: Der) {
    Joined(pieces) == Encode(der) && forall i :: 0 <= i < |pieces| ==> pieces[i] != ""
  }

  ghost predicate CutsOf(cuts: seq<seq<string>>, ders: seq<Der>) {
    |cuts| == |ders| && forall i :: 0 <= i < |ders| ==> ders[i] != [] && CutOf(cuts[i], ders[i])
  }

  /** The text is a layout of the certificates: Base64 cut into lines of any length, blanks around
      any line, blank lines anywhere, either line end, the last one optional. */
  ghost predicate LaidOut(pem: string, ders: seq<Der>, rows: seq<Row>, terminated: bool, cuts: seq<seq<string>>) {
    && pem == Text(rows, terminated) && (forall i :: 0 <= i < |rows| ==> RowOk(rows[i]))
    && Bodies(rows) == BlockLines(cuts) && CutsOf(cuts, ders)
  }

  ghost predicate IsLayout(pem: string, ders: seq<Der>) {
    exists rows, terminated, cuts :: LaidOut(pem, ders, rows, terminated, cuts)
  }

  // ----- Reading rows

  /** Feeding lines that are trimmed and not blank. */
  function FeedLines(r: Reader, lines: seq<string>): Result<Reader, PemError>
    decreases |lines|
  {
    if lines == [] then Ok(r)
    else
      var fed := Feed(r, lines[0]);
      if fed.Err? then Err(fed.error) else FeedLines(fed.value, lines[1..])
  }

  lemma RowTrims(row: Row)
    requires RowOk(row)
    ensures Trim(RowText(row)) == row.body && '\n' !in RowText(row)
  {
    var trail := row.trail + if row.crlf then "\r" else "";
    assert RowText(row) == row.lead + row.body + trail;
    assert IsWhitespace('\r');
    TrimDrops(row.lead, row.body, trail);
  }

  /** A row in front of a text. */
  lemma FeedRow(r: Reader, row: Row, rest: string)
    requires RowOk(row)
    ensures FeedText(r, RowText(row) + "\n" + rest) ==
              if row.body == "" then FeedText(r, rest)
              else FeedOn(Feed(r, row.body), rest)
  {
    RowTrims(row);
    var s := RowText(row) + "\n" + rest;
    LineEndOf(RowText(row), rest);
    assert s[..|RowText(row)|] == RowText(row) && s[|RowText(row)| + 1..] == rest;
    EmptyLine(r);
  }

  lemma EmptyLine(r: Reader)
    ensures Feed(r, "") == Ok(r)
  {
    assert BEGIN[0] == '-' && END[0] == '-';
  }

  /** A row at the end, without a line feed. */
  lemma FeedLastRow(r: Reader, row: Row)
    requires RowOk(row)
    ensures FeedText(r, RowText(row)) == if row.body == "" then Ok(r) else Feed(r, row.body)
  {
    RowTrims(row);
    EmptyLine(r);
    var s := RowText(row);
    if s == "" {
      assert row.body == "";
    } else {
      var n := LineEnd(s);
      assert n == |s| && s[..n] == s;
    }
  }

  lemma {:induction false} FeedRows(r: Reader, rows: seq<Row>, terminated: bool)
    requires forall i :: 0 <= i < |rows| ==> RowOk(rows[i])
    ensures FeedText(r, Text(rows, terminated)) == FeedLines(r, Bodies(rows))
    decreases |rows|
  {
    hide FeedText, Feed, RowText, RowOk;
    if rows == [] {
      FeedEmptyText(r);
    } else {
      var (row, rest) := (rows[0], rows[1..]);
      assert forall i :: 0 <= i < |rest| ==> rest[i] == rows[i + 1];
      var fed := if row.body == "" then Ok(r) else Feed(r, row.body);
      BodiesFeed(r, row, rest);
      assert rows == [row] + rest;
      if |rows| == 1 && !terminated {
        FeedLastRow(r, row);
        assert Text(rows, terminated) == RowText(row);
      } else {
        var after := if |rows| == 1 then "" else Text(rest, terminated);
        assert Text(rows, terminated) == RowText(row) + "\n" + after;
        FeedRow(r, row, after);
        if fed.Ok? {
          if |rows| == 1 {
            FeedEmptyText(fed.value);
          } else {
            FeedRows(fed.value, rest, terminated);
          }
        }
      }
    }
  }

  lemma FeedEmptyText(r: Reader)
    ensures FeedText(r, "") == Ok(r)
  {
  }

  lemma BodiesFeed(r: Reader, row: Row, rest: seq<Row>)
    ensures FeedLines(r, Bodies([row] + rest)) ==
              if row.body == "" then FeedLines(r, Bodies(rest))
              else if Feed(r, row.body).Err? then Err(Feed(r, row.body).error)
              else FeedLines(Feed(r, row.body).value, Bodies(rest))
  {
    var rows := [row] + rest;
    assert rows[0] == row && rows[1..] == rest;
    if row.body == "" {
      assert Bodies(rows) == Bodies(rest);
    } else {
      assert Bodies(rows) == [row.body] + Bodies(rest);
      assert Bodies(rows)[0] == row.body && Bodies(rows)[1..] == Bodies(rest);
    }
  }

  // ----- Reading blocks

  lemma {:induction false} PiecesAreBase64(pieces: seq<string>, i: nat)
    requires AllBase64(Joined(pieces)) && i < |pieces|
    ensures AllBase64(pieces[i])
  {
    var (head, tail) := (pieces[0], Joined(pieces[1..]));
    var all := head + tail;
    assert forall k :: 0 <= k < |head| ==> head[k] == all[k];
    assert forall k :: 0 <= k < |tail| ==> tail[k] == all[|head| + k];
    if i == 0 {
    } else {
      PiecesAreBase64(pieces[1..], i - 1);
    }
  }

  /** A nonempty Base64 line inside a block is added to it. */
  lemma FeedPiece(current: string, ders: seq<Der>, piece: string)
    requires piece != "" && AllBase64(piece)
    ensures Feed(Reader(Some(current), ders), piece) == Ok(Reader(Some(current + piece), ders))
  {
    assert Base64Char(piece[0]);
    assert BEGIN[0] == '-' && END[0] == '-';
  }

  lemma {:induction false} FeedPieces(current: string, ders: seq<Der>, pieces: seq<string>, lines: seq<string>)
    requires forall i :: 0 <= i < |pieces| ==> pieces[i] != "" && AllBase64(pieces[i])
    ensures FeedLines(Reader(Some(current), ders), pieces + lines) ==
            FeedLines(Reader(Some(current + Joined(pieces)), ders), lines)
    decreases |pieces|
  {
    hide Feed;
    if pieces == [] {
      assert pieces + lines == lines && current + Joined(pieces) == current;
    } else {
      FeedPiece(current, ders, pieces[0]);
      assert (pieces + lines)[0] == pieces[0] && (pieces + lines)[1..] == pieces[1..] + lines;
      FeedPieces(current + pieces[0], ders, pieces[1..], lines);
      assert current + pieces[0] + Joined(pieces[1..]) == current + Joined(pieces);
    }
  }

  lemma FeedMarkers(ders: seq<Der>, der: Der)
    requires der != []
    ensures Feed(Reader(None, ders), BEGIN) == Ok(Reader(Some(""), ders))
    ensures Feed(Reader(Some(Encode(der)), ders), END) == Ok(Reader(None, ders + [der]))
  {
    MarkerLines();
    DecodeEncode(der);
    hide Encode, Decode;
  }

  lemma CutIsBase64(pieces: seq<string>, der: Der)
    requires CutOf(pieces, der)
    ensures forall i :: 0 <= i < |pieces| ==> pieces[i] != "" && AllBase64(pieces[i])
  {
    DecodeEncode(der);
    forall i | 0 <= i < |pieces| ensures AllBase64(pieces[i]) {
      PiecesAreBase64(pieces, i);
    }
  }

  lemma FeedHead(r: Reader, line: string, rest: seq<string>)
    ensures FeedLines(r, [line] + rest) ==
              if Feed(r, line).Err? then Err(Feed(r, line).error) else FeedLines(Feed(r, line).value, rest)
  {
    var lines := [line] + rest;
    assert lines[0] == line && lines[1..] == rest;
  }

  lemma FeedCut(ders: seq<Der>, pieces: seq<string>, der: Der, lines: seq<string>)
    requires der != [] && CutOf(pieces, der)
    ensures FeedLines(Reader(None, ders), [BEGIN] + pieces + [END] + lines) ==
            FeedLines(Reader(None, ders + [der]), lines)
  {
    hide FeedLines, Feed, Encode, Decode, Joined, AllBase64;
    CutIsBase64(pieces, der);
    FeedMarkers(ders, der);
    assert [BEGIN] + pieces + [END] + lines == [BEGIN] + (pieces + ([END] + lines));
    FeedHead(Reader(None, ders), BEGIN, pieces + ([END] + lines));
    FeedPieces("", ders, pieces, [END] + lines);
    assert "" + Joined(pieces) == Encode(der);
    FeedHead(Reader(Some(Encode(der)), ders), END, lines);
  }

  lemma {:induction false} FeedCuts(before: seq<Der>, cuts: seq<seq<string>>, ders: seq<Der>)
    requires CutsOf(cuts, ders)
    ensures FeedLines(Reader(None, before), BlockLines(cuts)) == Ok(Reader(None, before + ders))
    decreases |cuts|
  {
    hide FeedLines, CutOf;
    if cuts == [] {
      FeedNoLines(Reader(None, before));
      assert before + ders == before;
    } else {
      FeedCut(before, cuts[0], ders[0], BlockLines(cuts[1..]));
      FeedCuts(before + [ders[0]], cuts[1..], ders[1..]);
      assert before + [ders[0]] + ders[1..] == before + ders;
    }
  }

  lemma FeedNoLines(r: Reader)
    ensures FeedLines(r, []) == Ok(r)
  {
  }

  /** Every layout of a list of certificates is read as that list, within the limit. */
  lemma LayoutReads(pem: string, ders: seq<Der>)
    requires ders != [] && IsLayout(pem, ders)
    ensures ReadPem(pem) == if Utf8Length(pem) > MAX_PEM_BYTES then Err(BadLength) else Ok(ders)
  {
    var rows, terminated, cuts :| LaidOut(pem, ders, rows, terminated, cuts);
    FeedRows(Reader(None, []), rows, terminated);
    FeedCuts([], cuts, ders);
    assert [] + ders == ders;
    assert pem != "" by {
      if pem == "" {
        FeedEmptyText(Reader(None, []));
      }
    }
    hide FeedText, FeedLines, Utf8Length;
  }

  // ----- Nothing else is read

  lemma RowOfLine(line: string) returns (row: Row)
    requires '\n' !in line
    ensures RowOk(row) && RowText(row) == line
  {
    hide Trim, Blank;
    var lead, trail := TrimSplits(line);
    row := Row(lead, Trim(line), trail, false);
    assert line == lead + row.body + trail;
    assert forall c :: c in lead || c in row.body || c in trail ==> c in line;
  }

  lemma TextOf(row: Row, more: seq<Row>, terminated: bool)
    ensures Text([row], terminated) == RowText(row) + if terminated then "\n" else ""
    ensures more != [] ==> Text([row] + more, terminated) == RowText(row) + "\n" + Text(more, terminated)
  {
    hide RowText;
    assert more != [] ==> ([row] + more)[1..] == more;
  }

  lemma {:induction false} RowsExist(s: string) returns (rows: seq<Row>, terminated: bool)
    ensures Text(rows, terminated) == s && (forall i :: 0 <= i < |rows| ==> RowOk(rows[i])) && (rows == [] <==> s == "")
    decreases |s|
  {
    if s == "" {
      rows, terminated := [], true;
    } else {
      hide RowOk, RowText, Text;
      var n := LineEnd(s);
      var row := RowOfLine(s[..n]);
      if n == |s| {
        rows, terminated := [row], false;
        assert s[..n] + "" == s;
        TextOf(row, [], false);
      } else if n + 1 == |s| {
        rows, terminated := [row], true;
        assert s == s[..n] + "\n";
        TextOf(row, [], true);
      } else {
        var more, t := RowsExist(s[n + 1..]);
        rows, terminated := [row] + more, t;
        assert s == s[..n] + "\n" + s[n + 1..];
        TextOf(row, more, t);
      }
    }
  }

  lemma {:induction false} BodiesNotBlank(rows: seq<Row>)
    ensures forall i :: 0 <= i < |Bodies(rows)| ==> Bodies(rows)[i] != ""
  {
    if rows == [] {
    } else {
      BodiesNotBlank(rows[1..]);
    }
  }

  /** What a line that is read can be. */
  lemma FeedCases(r: Reader, line: string)
    requires line != "" && Feed(r, line).Ok?
    ensures var next := Feed(r, line).value;
            || (r.current.None? && line == BEGIN && next == Reader(Some(""), r.ders))
            || (&& r.current.Some? && line == END && r.current.value != "" && Decode(r.current.value).Some?
                && next == Reader(None, r.ders + [Decode(r.current.value).value]))
            || (r.current.Some? && line != END && next == Reader(Some(r.current.value + line), r.ders))
  {
    hide Decode, AllBase64;
    MarkerLines();
  }

  /** The lines are the rest of an open block, if there is one, in these pieces, and then whole
      blocks in these cuts, of these certificates. */
  ghost predicate ReadAs(current: Option<string>, lines: seq<string>, ds: seq<Der>, pieces: seq<string>,
                         cuts: seq<seq<string>>)
  {
    && (forall i :: 0 <= i < |pieces| ==> pieces[i] != "")
    && match current
       case None => lines == BlockLines(cuts) && CutsOf(cuts, ds)
       case Some(text) =>
         && ds != [] && ds[0] != [] && lines == pieces + [END] + BlockLines(cuts)
         && text + Joined(pieces) == Encode(ds[0]) && CutsOf(cuts, ds[1..])
  }

  lemma BeginRead(rest: seq<string>, ds: seq<Der>, pieces: seq<string>, cuts: seq<seq<string>>)
    requires ReadAs(Some(""), rest, ds, pieces, cuts)
    ensures ReadAs(None, [BEGIN] + rest, ds, [], [pieces] + cuts)
  {
    hide Encode, BlockLines, CutsOf, Joined;
    assert "" + Joined(pieces) == Joined(pieces);
    OneMoreCut(pieces, cuts, ds);
    assert [BEGIN] + rest == [BEGIN] + pieces + [END] + BlockLines(cuts);
  }

  lemma EndRead(text: string, der: Der, rest: seq<string>, ds: seq<Der>, pieces: seq<string>, cuts: seq<seq<string>>)
    requires text != "" && Decode(text) == Some(der) && ReadAs(None, rest, ds, pieces, cuts)
    ensures ReadAs(Some(text), [END] + rest, [der] + ds, [], cuts)
  {
    hide Encode, Decode, BlockLines, CutsOf, Joined;
    DecodedText(text, der);
    NothingJoined();
    assert text + Joined([]) == text;
    var all := [der] + ds;
    assert all[0] == der && all[1..] == ds;
    assert [END] + rest == [] + [END] + rest;
  }

  lemma DecodedText(text: string, der: Der)
    requires text != "" && Decode(text) == Some(der)
    ensures Encode(der) == text && der != []
  {
    EncodeDecode(text);
  }

  lemma NothingJoined()
    ensures Joined([]) == ""
  {
  }

  lemma PieceRead(text: string, line: string, rest: seq<string>, ds: seq<Der>, pieces: seq<string>, cuts: seq<seq<string>>)
    requires line != "" && ReadAs(Some(text + line), rest, ds, pieces, cuts)
    ensures ReadAs(Some(text), [line] + rest, ds, [line] + pieces, cuts)
  {
    hide Encode, BlockLines;
    var more := [line] + pieces;
    assert more[1..] == pieces;
    assert text + Joined(more) == text + line + Joined(pieces);
    assert [line] + rest == more + [END] + BlockLines(cuts);
  }

  /** Lines that are read to the end are the rest of an open block and whole blocks. */
  lemma {:induction false} ReadLinesAreBlocks(r: Reader, lines: seq<string>, r': Reader)
    returns (pieces: seq<string>, cuts: seq<seq<string>>)
    requires forall i :: 0 <= i < |lines| ==> lines[i] != ""
    requires FeedLines(r, lines) == Ok(r') && r'.current.None?
    ensures |r.ders| <= |r'.ders| && r'.ders[..|r.ders|] == r.ders
    ensures ReadAs(r.current, lines, r'.ders[|r.ders|..], pieces, cuts)
    decreases |lines|
  {
    hide Decode, Feed;
    if lines == [] {
      pieces, cuts := [], [];
    } else {
      hide ReadAs;
      var (line, rest) := (lines[0], lines[1..]);
      assert lines == [line] + rest && forall i :: 0 <= i < |rest| ==> rest[i] == lines[i + 1];
      FeedCases(r, line);
      var next := Feed(r, line).value;
      var p, c := ReadLinesAreBlocks(next, rest, r');
      var ds := r'.ders[|next.ders|..];
      if r.current.None? {
        BeginRead(rest, ds, p, c);
        pieces, cuts := [], [p] + c;
      } else if line == END {
        var der := Decode(r.current.value).value;
        EndRead(r.current.value, der, rest, ds, p, c);
        pieces, cuts := [], c;
        assert r'.ders[|r.ders|] == next.ders[|r.ders|] == der;
        assert r'.ders[|r.ders|..] == [der] + ds;
      } else {
        PieceRead(r.current.value, line, rest, ds, p, c);
        pieces, cuts := [line] + p, c;
      }
    }
  }

  lemma OneMoreCut(p: seq<string>, c: seq<seq<string>>, ds: seq<Der>)
    requires ds != [] && ds[0] != [] && CutOf(p, ds[0]) && CutsOf(c, ds[1..])
    ensures CutsOf([p] + c, ds) && BlockLines([p] + c) == [BEGIN] + p + [END] + BlockLines(c)
  {
    var cuts := [p] + c;
    assert cuts[0] == p && cuts[1..] == c;
    forall i | 0 <= i < |ds| ensures ds[i] != [] && CutOf(cuts[i], ds[i]) {
      if i > 0 {
        assert cuts[i] == c[i - 1] && ds[i] == ds[1..][i - 1];
      }
    }
  }

  /** Reading exactly: a text is read as a list of certificates if and only if it is a layout of
      that list, the list is not empty, and the text is within the limit. */
  lemma ReadIsExact(pem: string, ders: seq<Der>)
    ensures ReadPem(pem) == Ok(ders) <==> ders != [] && Utf8Length(pem) <= 65_536 && IsLayout(pem, ders)
  {
    if ders != [] && IsLayout(pem, ders) {
      LayoutReads(pem, ders);
    }
    if ReadPem(pem) == Ok(ders) {
      var rows, terminated := RowsExist(pem);
      FeedRows(Reader(None, []), rows, terminated);
      BodiesNotBlank(rows);
      var pieces, cuts := ReadLinesAreBlocks(Reader(None, []), Bodies(rows), Reader(None, ders));
      assert ders[0..] == ders;
      assert LaidOut(pem, ders, rows, terminated, cuts);
    }
  }

  // ----- Normalizing layouts

  /** Two layouts, however different as texts, have the same normal form if and only if their
      lists hold the same certificates, and one is accepted if the other is. */
  lemma NormalizeByLayout(valid: seq<Der> -> bool, a: string, x: seq<Der>, b: string, y: seq<Der>)
    requires x != [] && IsLayout(a, x) && Utf8Length(a) <= MAX_PEM_BYTES
    requires y != [] && IsLayout(b, y) && Utf8Length(b) <= MAX_PEM_BYTES
    ensures Elements(x) == Elements(y) ==> Normalize(valid, a) == Normalize(valid, b)
    ensures Normalize(valid, a).Ok? && Normalize(valid, b).Ok? ==>
              && (Normalize(valid, a) == Normalize(valid, b) <==> Elements(x) == Elements(y))
              && (SelectEffective(Some(Normalize(valid, a).value), Some(Normalize(valid, b).value)).Ok? <==>
                  Elements(x) == Elements(y))
  {
    hide ReadPem, Canonical, PrintPem, IsLayout, Utf8Length;
    ReadIsExact(a, x);
    ReadIsExact(b, y);
    if Elements(x) == Elements(y) {
      CanonicalBySet(x, y);
    }
    if Normalize(valid, a).Ok? && Normalize(valid, b).Ok? {
      NormalizeBySet(valid, a, b);
    }
  }

  // ----- What is printed

  function WithLineFeeds(pieces: seq<string>): string {
    if pieces == [] then "" else pieces[0] + "\n" + WithLineFeeds(pieces[1..])
  }

  /** Full lines of 64 characters, and one last line of 1 to 64. */
  ghost predicate FullLines(pieces: seq<string>) {
    forall i :: 0 <= i < |pieces| ==> if i < |pieces| - 1 then |pieces[i]| == 64 else 1 <= |pieces[i]| <= 64
  }

  lemma {:induction false} ChunksAreFullLines(encoded: string) returns (pieces: seq<string>)
    ensures Chunks(encoded) == WithLineFeeds(pieces) && Joined(pieces) == encoded && FullLines(pieces)
    decreases |encoded|
  {
    if encoded == "" {
      pieces := [];
    } else if |encoded| <= LINE_LENGTH {
      pieces := [encoded];
      assert pieces[1..] == [];
    } else {
      var more := ChunksAreFullLines(encoded[LINE_LENGTH..]);
      pieces := [encoded[..LINE_LENGTH]] + more;
      assert pieces[1..] == more && more != [];
      assert encoded == encoded[..LINE_LENGTH] + encoded[LINE_LENGTH..];
    }
  }

  /** A printed block: the markers around the Base64 text in full lines. */
  lemma PrintedBlock(der: Der) returns (pieces: seq<string>)
    ensures Block(der) == BEGIN + "\n" + WithLineFeeds(pieces) + END + "\n"
    ensures Joined(pieces) == Encode(der) && FullLines(pieces)
  {
    pieces := ChunksAreFullLines(Encode(der));
  }
}
