/** DNS search domains and the text trimming they share with the PEM reader. */
module Domains {
  import opened Wrappers

  /** `char::is_whitespace` */
  predicate IsWhitespace(c: char) {
    var n := c as int;
    || 9 <= n <= 13 || n == 32 || n == 0x85 || n == 0xA0 || n == 0x1680
    || 0x2000 <= n <= 0x200A || n == 0x2028 || n == 0x2029 || n == 0x202F || n == 0x205F || n == 0x3000
  }

  function TrimStart(s: string): string {
    if s != [] && IsWhitespace(s[0]) then TrimStart(s[1..]) else s
  }

  function TrimEnd(s: string): string {
    if s != [] && IsWhitespace(s[|s| - 1]) then TrimEnd(s[..|s| - 1]) else s
  }

  function Trim(s: string): string {
    TrimEnd(TrimStart(s))
  }

  /** `trim_end_matches('.')` */
  function TrimEndDots(s: string): string {
    if s != [] && s[|s| - 1] == '.' then TrimEndDots(s[..|s| - 1]) else s
  }

  /** `to_ascii_lowercase` on one character. */
  function Lower(c: char): char {
    if 'A' <= c <= 'Z' then (c as int + 32) as char else c
  }

  function LowerAll(s: string): (r: string)
    ensures |r| == |s| && forall i :: 0 <= i < |s| ==> r[i] == Lower(s[i])
  {
    seq(|s|, i requires 0 <= i < |s| => Lower(s[i]))
  }

  /** `split('.')` */
  function Labels(s: string): (r: seq<string>)
    ensures |r| >= 1
  {
    if s == [] then [[]]
    else
      var rest := Labels(s[1..]);
      if s[0] == '.' then [[]] + rest else [[s[0]] + rest[0]] + rest[1..]
  }

  predicate LabelChar(c: char) {
    'a' <= c <= 'z' || 'A' <= c <= 'Z' || '0' <= c <= '9' || c == '-'
  }

  predicate LabelOk(part: string) {
    && 1 <= |part| <= 63
    && part[0] != '-' && part[|part| - 1] != '-'
    && forall i :: 0 <= i < |part| ==> LabelChar(part[i])
  }

  /** A length in bytes differs from one in characters only for text outside ASCII, which
      the label test refuses in either case. */
  predicate DomainOk(domain: string) {
    && 1 <= |domain| <= 253
    && forall i :: 0 <= i < |Labels(domain)| ==> LabelOk(Labels(domain)[i])
  }

  function NormalizeDomain(raw: string): Option<string> {
    var domain := LowerAll(TrimEndDots(Trim(raw)));
    if DomainOk(domain) then Some(domain) else None
  }

  lemma {:induction false} LabelsOfOk(s: string)
    requires forall i :: 1 <= i < |Labels(s)| ==> LabelOk(Labels(s)[i])
    requires forall j :: 0 <= j < |Labels(s)[0]| ==> LabelChar(Labels(s)[0][j])
    ensures forall k :: 0 <= k < |s| ==> s[k] == '.' || LabelChar(s[k])
    ensures s != [] ==> LabelChar(s[|s| - 1])
  {
    if s == [] {
    } else {
      var rest := Labels(s[1..]);
      if s[0] == '.' {
        forall i | 0 <= i < |rest| ensures LabelOk(rest[i]) {
          assert Labels(s)[i + 1] == rest[i];
        }
        assert s[1..] != [];
      } else {
        assert Labels(s)[0] == [s[0]] + rest[0];
        forall j | 0 <= j < |rest[0]| ensures LabelChar(rest[0][j]) {
          assert Labels(s)[0][j + 1] == rest[0][j];
        }
        forall i | 0 < i < |rest| ensures LabelOk(rest[i]) {
          assert Labels(s)[i] == rest[i];
        }
        assert LabelChar(Labels(s)[0][0]);
      }
      LabelsOfOk(s[1..]);
      forall k | 0 <= k < |s| ensures s[k] == '.' || LabelChar(s[k]) {
        if k > 0 {
          assert s[k] == s[1..][k - 1];
        }
      }
      assert |s| > 1 ==> s[|s| - 1] == s[1..][|s| - 2];
    }
  }

  /** Normalizing is idempotent: what it accepts once, it accepts again unchanged. */
  lemma NormalizeDomainIdempotent(raw: string)
    requires NormalizeDomain(raw).Some?
    ensures NormalizeDomain(NormalizeDomain(raw).value) == NormalizeDomain(raw)
  {
    var domain := NormalizeDomain(raw).value;
    assert LabelOk(Labels(domain)[0]);
    LabelsOfOk(domain);
    assert domain[0] != '.';
    assert Trim(domain) == domain;
    assert LowerAll(domain) == domain;
  }

  // ----- Trimming exactly

  predicate Blank(s: string) {
    forall i :: 0 <= i < |s| ==> IsWhitespace(s[i])
  }

  /** Neither begins nor ends with white space. */
  predicate Bare(s: string) {
    s == "" || (!IsWhitespace(s[0]) && !IsWhitespace(s[|s| - 1]))
  }

  lemma {:induction false} TrimStartDrops(lead: string, s: string)
    requires Blank(lead) && (s == "" || !IsWhitespace(s[0]))
    ensures TrimStart(lead + s) == s
  {
    if lead == "" {
      assert lead + s == s;
    } else {
      assert (lead + s)[1..] == lead[1..] + s;
      TrimStartDrops(lead[1..], s);
    }
  }

  lemma {:induction false} TrimEndDrops(s: string, trail: string)
    requires Blank(trail) && (s == "" || !IsWhitespace(s[|s| - 1]))
    ensures TrimEnd(s + trail) == s
  {
    if trail == "" {
      assert s + trail == s;
    } else {
      assert (s + trail)[..|s + trail| - 1] == s + trail[..|trail| - 1];
      TrimEndDrops(s, trail[..|trail| - 1]);
    }
  }

  lemma TrimDrops(lead: string, s: string, trail: string)
    requires Blank(lead) && Blank(trail) && Bare(s)
    ensures Trim(lead + s + trail) == s
  {
    if s == "" {
      TrimStartDrops(lead + trail, "");
      assert lead + s + trail == (lead + trail) + "";
    } else {
      assert lead + s + trail == lead + (s + trail);
      TrimStartDrops(lead, s + trail);
      TrimEndDrops(s, trail);
    }
  }

  lemma {:induction false} TrimStartSplits(s: string) returns (lead: string)
    ensures s == lead + TrimStart(s) && Blank(lead)
    ensures TrimStart(s) == "" || !IsWhitespace(TrimStart(s)[0])
  {
    if s != [] && IsWhitespace(s[0]) {
      lead := TrimStartSplits(s[1..]);
      lead := [s[0]] + lead;
    } else {
      lead := "";
    }
  }

  lemma {:induction false} TrimEndSplits(s: string) returns (trail: string)
    ensures s == TrimEnd(s) + trail && Blank(trail)
    ensures TrimEnd(s) == "" || (!IsWhitespace(TrimEnd(s)[|TrimEnd(s)| - 1]) && TrimEnd(s)[0] == s[0])
  {
    if s != [] && IsWhitespace(s[|s| - 1]) {
      trail := TrimEndSplits(s[..|s| - 1]);
      trail := trail + [s[|s| - 1]];
    } else {
      trail := "";
    }
  }

  lemma TrimSplits(s: string) returns (lead: string, trail: string)
    ensures s == lead + Trim(s) + trail && Blank(lead) && Blank(trail) && Bare(Trim(s))
  {
    lead := TrimStartSplits(s);
    trail := TrimEndSplits(TrimStart(s));
  }

  /** Trimming takes away white space at both ends, all of it and nothing else. */
  lemma TrimIsExact(s: string, t: string)
    ensures Trim(s) == t <==>
              exists lead, trail :: Blank(lead) && Blank(trail) && Bare(t) && s == lead + t + trail
  {
    var lead, trail := TrimSplits(s);
    forall lead, trail | Blank(lead) && Blank(trail) && Bare(t) && s == lead + t + trail ensures Trim(s) == t {
      TrimDrops(lead, t, trail);
    }
  }

  // ----- Domains exactly

  ghost predicate CharsOk(d: string) {
    forall i :: 0 <= i < |d| ==> LabelChar(d[i]) || d[i] == '.'
  }

  ghost predicate EndsOk(d: string) {
    d != "" && d[0] != '.' && d[0] != '-' && d[|d| - 1] != '.' && d[|d| - 1] != '-'
  }

  /** What stands before and after a dot is neither a dot nor a hyphen. */
  ghost predicate DotsOk(d: string) {
    forall i :: 0 < i < |d| - 1 && d[i] == '.' ==>
      d[i - 1] != '.' && d[i - 1] != '-' && d[i + 1] != '.' && d[i + 1] != '-'
  }

  ghost predicate DotWithin(d: string, i: int) {
    exists j :: i <= j < i + 64 && 0 <= j < |d| && d[j] == '.'
  }

  ghost predicate ShortLabels(d: string) {
    forall i :: 0 <= i <= |d| - 64 ==> DotWithin(d, i)
  }

  /** A domain character by character: letters, digits, hyphens and dots; no dot or hyphen at
      either end or beside a dot; no 64 characters without a dot. */
  ghost predicate ProperText(d: string) {
    CharsOk(d) && EndsOk(d) && DotsOk(d) && ShortLabels(d)
  }

  /** The number of characters before the first dot. */
  function FirstDot(s: string): (k: nat)
    ensures k <= |s| && (k < |s| ==> s[k] == '.') && forall i :: 0 <= i < k ==> s[i] != '.'
  {
    if s == "" || s[0] == '.' then 0 else 1 + FirstDot(s[1..])
  }

  lemma {:induction false} LabelsSplit(s: string)
    ensures var k := FirstDot(s);
            Labels(s) == [s[..k]] + if k < |s| then Labels(s[k + 1..]) else []
  {
    if s == "" || s[0] == '.' {
    } else {
      LabelsSplit(s[1..]);
      var k := FirstDot(s[1..]);
      assert s[1..][..k] == s[1..k + 1] && s[..k + 1] == [s[0]] + s[1..k + 1];
      assert k < |s[1..]| ==> s[1..][k + 1..] == s[k + 2..];
    }
  }

  ghost predicate LabelsOk(s: string) {
    forall i :: 0 <= i < |Labels(s)| ==> LabelOk(Labels(s)[i])
  }

  lemma LabelsOkSplit(s: string)
    ensures var k := FirstDot(s);
            LabelsOk(s) <==> LabelOk(s[..k]) && (k < |s| ==> LabelsOk(s[k + 1..]))
  {
    LabelsSplit(s);
    var (k, labels) := (FirstDot(s), Labels(s));
    assert labels[0] == s[..k];
    if k < |s| {
      var rest := Labels(s[k + 1..]);
      assert labels == [s[..k]] + rest;
      assert forall i :: 0 <= i < |rest| ==> labels[i + 1] == rest[i];
      assert forall i :: 1 <= i < |labels| ==> labels[i] == rest[i - 1];
    }
  }

  lemma ShortLabelsJoin(s: string, k: nat)
    requires k == FirstDot(s) < |s| && k <= 63
    ensures ShortLabels(s) <==> ShortLabels(s[k + 1..])
  {
    var b := s[k + 1..];
    assert forall i :: 0 <= i < |b| ==> b[i] == s[k + 1 + i];
    if ShortLabels(b) {
      forall i | 0 <= i <= |s| - 64 ensures DotWithin(s, i) {
        if i <= k {
          assert s[k] == '.';
        } else {
          assert DotWithin(b, i - k - 1);
          var j :| i - k - 1 <= j < i - k - 1 + 64 && 0 <= j < |b| && b[j] == '.';
          assert s[k + 1 + j] == '.';
        }
      }
    }
    if ShortLabels(s) {
      forall i | 0 <= i <= |b| - 64 ensures DotWithin(b, i) {
        assert DotWithin(s, k + 1 + i);
        var j :| k + 1 + i <= j < k + 1 + i + 64 && 0 <= j < |s| && s[j] == '.';
        assert b[j - k - 1] == '.';
      }
    }
  }

  lemma DotsOkJoin(s: string, k: nat)
    requires k == FirstDot(s) < |s| && EndsOk(s)
    ensures var b := s[k + 1..];
            DotsOk(s) && EndsOk(s) <==> s[k - 1] != '-' && b != "" && EndsOk(b) && DotsOk(b)
  {
    var b := s[k + 1..];
    assert forall i :: 0 <= i < |b| ==> b[i] == s[k + 1 + i];
    assert s[k] == '.' && 0 < k < |s| - 1;
    assert b[0] == s[k + 1] && b[|b| - 1] == s[|s| - 1];
    if EndsOk(b) && DotsOk(b) && s[k - 1] != '-' {
      forall i | 0 < i < |s| - 1 && s[i] == '.'
        ensures s[i - 1] != '.' && s[i - 1] != '-' && s[i + 1] != '.' && s[i + 1] != '-'
      {
        if i > k {
          assert b[i - k - 1] == '.' && i - k - 1 > 0;
          assert b[i - k - 2] == s[i - 1] && b[i - k] == s[i + 1];
        }
      }
    }
  }

  lemma ProperTextJoins(s: string, k: nat)
    requires k == FirstDot(s) < |s| && LabelOk(s[..k]) && ProperText(s[k + 1..])
    ensures ProperText(s)
  {
    var (a, b) := (s[..k], s[k + 1..]);
    assert forall i :: 0 <= i < k ==> s[i] == a[i];
    assert forall i :: k < i < |s| ==> s[i] == b[i - k - 1];
    hide DotsOk, ShortLabels;
    assert s[0] == a[0] && s[k - 1] == a[k - 1] && s[|s| - 1] == b[|b| - 1];
    assert EndsOk(s);
    ShortLabelsJoin(s, k);
    DotsOkJoin(s, k);
  }

  lemma ProperTextSplits(s: string, k: nat)
    requires ProperText(s) && k == FirstDot(s)
    ensures LabelOk(s[..k]) && (k < |s| ==> ProperText(s[k + 1..]))
  {
    var a := s[..k];
    assert forall i :: 0 <= i < k ==> a[i] == s[i];
    assert |s| >= 64 ==> DotWithin(s, 0);
    assert s[0] != '.' && k > 0;
    assert a[0] == s[0] && a[k - 1] == s[k - 1];
    if k < |s| {
      ShortLabelsJoin(s, k);
      DotsOkJoin(s, k);
      var b := s[k + 1..];
      assert forall i :: 0 <= i < |b| ==> b[i] == s[k + 1 + i];
    }
  }

  lemma {:induction false} LabelsOkIffProper(s: string)
    ensures LabelsOk(s) <==> ProperText(s)
    decreases |s|
  {
    var k := FirstDot(s);
    LabelsOkSplit(s);
    if k == |s| {
      assert s[..k] == s;
      if ProperText(s) {
        ProperTextSplits(s, k);
      }
      if LabelOk(s) {
        assert |s| <= 63;
      }
    } else {
      LabelsOkIffProper(s[k + 1..]);
      if ProperText(s) {
        ProperTextSplits(s, k);
      }
      if LabelsOk(s) {
        ProperTextJoins(s, k);
      }
    }
  }

  lemma {:induction false} TrimEndDotsSplits(s: string) returns (dots: string)
    ensures s == TrimEndDots(s) + dots && forall i :: 0 <= i < |dots| ==> dots[i] == '.'
  {
    if s != [] && s[|s| - 1] == '.' {
      dots := TrimEndDotsSplits(s[..|s| - 1]);
      dots := dots + ".";
    } else {
      dots := "";
    }
  }

  lemma {:induction false} TrimEndDotsDrops(s: string, dots: string)
    requires s != "" && s[|s| - 1] != '.' && forall i :: 0 <= i < |dots| ==> dots[i] == '.'
    ensures TrimEndDots(s + dots) == s
  {
    if dots == "" {
      assert s + dots == s;
    } else {
      assert (s + dots)[..|s + dots| - 1] == s + dots[..|dots| - 1];
      TrimEndDotsDrops(s, dots[..|dots| - 1]);
    }
  }

  /** The raw text is a core, with trailing dots and white space around, in any case. */
  ghost predicate Spells(raw: string, d: string, lead: string, core: string, dots: string, trail: string) {
    && raw == lead + (core + dots) + trail && Blank(lead) && Blank(trail)
    && (forall i :: 0 <= i < |dots| ==> dots[i] == '.')
    && d == LowerAll(core)
  }

  /** Normalizing exactly: a text normalizes to a domain if and only if it spells that domain, in
      lower case, and the domain is proper and at most 253 characters long. */
  lemma NormalizeDomainIsExact(raw: string, d: string)
    ensures NormalizeDomain(raw) == Some(d) <==>
              && |d| <= 253 && ProperText(d)
              && exists lead, core, dots, trail :: Spells(raw, d, lead, core, dots, trail)
  {
    LabelsOkIffProper(d);
    if NormalizeDomain(raw) == Some(d) {
      var lead, trail := TrimSplits(raw);
      var dots := TrimEndDotsSplits(Trim(raw));
      assert Spells(raw, d, lead, TrimEndDots(Trim(raw)), dots, trail);
    }
    if |d| <= 253 && ProperText(d) {
      forall lead, core, dots, trail | Spells(raw, d, lead, core, dots, trail) ensures NormalizeDomain(raw) == Some(d) {
        SpelledNormalizes(raw, d, lead, core, dots, trail);
      }
    }
  }

  lemma SpelledNormalizes(raw: string, d: string, lead: string, core: string, dots: string, trail: string)
    requires Spells(raw, d, lead, core, dots, trail) && ProperText(d)
    ensures LowerAll(TrimEndDots(Trim(raw))) == d
  {
    assert d[0] == Lower(core[0]) && d[|d| - 1] == Lower(core[|core| - 1]);
    assert LabelChar(d[0]) && LabelChar(d[|d| - 1]);
    assert Bare(core + dots);
    TrimDrops(lead, core + dots, trail);
    TrimEndDotsDrops(core, dots);
  }
}
