/** The lexicographic order of byte strings and of texts. */
module Lexicographic {
  import opened Sorting

  predicate LexLe(a: seq<nat>, b: seq<nat>) {
    if a == [] then true
    else if b == [] then false
    else if a[0] != b[0] then a[0] < b[0]
    else LexLe(a[1..], b[1..])
  }

  lemma {:induction false} LexTotal(a: seq<nat>, b: seq<nat>)
    ensures LexLe(a, b) || LexLe(b, a)
  {
    if a != [] && b != [] && a[0] == b[0] {
      LexTotal(a[1..], b[1..]);
    }
  }

  lemma {:induction false} LexAntisymmetric(a: seq<nat>, b: seq<nat>)
    requires LexLe(a, b) && LexLe(b, a)
    ensures a == b
  {
    if a != [] && b != [] {
      LexAntisymmetric(a[1..], b[1..]);
      assert a == [a[0]] + a[1..];
      assert b == [b[0]] + b[1..];
    }
  }

  lemma {:induction false} LexTransitive(a: seq<nat>, b: seq<nat>, c: seq<nat>)
    requires LexLe(a, b) && LexLe(b, c)
    ensures LexLe(a, c)
  {
    if a != [] && b != [] && c != [] && a[0] == b[0] == c[0] {
      LexTransitive(a[1..], b[1..], c[1..]);
    }
  }

  /** The order exactly: one is a prefix of the other, or smaller where they first differ. */
  lemma {:induction false} LexIsExact(a: seq<nat>, b: seq<nat>)
    ensures LexLe(a, b) <==>
              || a <= b
              || exists k :: 0 <= k < |a| && k < |b| && a[..k] == b[..k] && a[k] < b[k]
  {
    if a == [] || b == [] {
    } else if a[0] != b[0] {
      assert a[..0] == b[..0];
      forall k | 0 < k < |a| && k < |b| ensures a[..k] != b[..k] {
        assert a[..k][0] != b[..k][0];
      }
    } else {
      var (x, y) := (a[1..], b[1..]);
      LexIsExact(x, y);
      assert a <= b <==> x <= y;
      forall k | 0 <= k < |x| && k < |y| && x[..k] == y[..k] && x[k] < y[k]
        ensures a[..k + 1] == b[..k + 1] && a[k + 1] < b[k + 1]
      {
        assert a[..k + 1] == [a[0]] + x[..k] && b[..k + 1] == [b[0]] + y[..k];
      }
      forall k | 0 <= k < |a| && k < |b| && a[..k] == b[..k] && a[k] < b[k]
        ensures k > 0 && x[..k - 1] == y[..k - 1] && x[k - 1] < y[k - 1]
      {
        assert x[..k - 1] == a[..k][1..] && y[..k - 1] == b[..k][1..];
      }
    }
  }

  /** Code points; the order of UTF-8 bytes is the order of code points. */
  function Codes(s: string): (r: seq<nat>)
    ensures |r| == |s| && forall i :: 0 <= i < |s| ==> r[i] == s[i] as nat
  {
    seq(|s|, i requires 0 <= i < |s| => s[i] as nat)
  }

  predicate StringLe(a: string, b: string) {
    LexLe(Codes(a), Codes(b))
  }

  lemma StringIsTotalOrder()
    ensures TotalOrder(StringLe)
  {
    forall a, b ensures StringLe(a, b) || StringLe(b, a) {
      LexTotal(Codes(a), Codes(b));
    }
    forall a: string, b: string | StringLe(a, b) && StringLe(b, a) ensures a == b {
      LexAntisymmetric(Codes(a), Codes(b));
      assert |a| == |b|;
      forall i | 0 <= i < |a| ensures a[i] == b[i] {
        assert Codes(a)[i] == Codes(b)[i];
      }
    }
    forall a, b, c | StringLe(a, b) && StringLe(b, c) ensures StringLe(a, c) {
      LexTransitive(Codes(a), Codes(b), Codes(c));
    }
  }
}
