/** Powers of two and 64-bit machine words.

A word is the natural number it denotes.  A left shift is made of single shifts, each
of which doubles the word and drops the bit that leaves it; a mask with one bit set is
read and written one halving at a time.
*/
module Words {
  import opened Wrappers

  function Pow2(n: nat): (r: nat)
    ensures r >= 1
  {
    if n == 0 then 1 else 2 * Pow2(n - 1)
  }

  lemma {:induction false} Pow2Add(m: nat, n: nat)
    ensures Pow2(m + n) == Pow2(m) * Pow2(n)
  {
    if m == 0 {
    } else {
      Pow2Add(m - 1, n);
      assert Pow2(m + n) == 2 * Pow2(m - 1 + n);
      assert 2 * (Pow2(m - 1) * Pow2(n)) == (2 * Pow2(m - 1)) * Pow2(n);
    }
  }

  lemma {:induction false} Pow2Monotone(m: nat, n: nat)
    requires m <= n
    ensures Pow2(m) <= Pow2(n)
    ensures m < n ==> 2 * Pow2(m) <= Pow2(n)
    decreases n - m
  {
    if m == n {
    } else {
      Pow2Monotone(m, n - 1);
    }
  }

  const WORD_SIZE: nat := 64

  lemma Pow2Square(n: nat, value: nat)
    requires Pow2(n) == value
    ensures Pow2(2 * n) == value * value
  {
    Pow2Add(n, n);
  }

  lemma WordRange(n: nat)
    requires n == WORD_SIZE
    ensures Pow2(n) == U64_MAX + 1
  {
    assert Pow2(4) == 16;
    Pow2Square(n / 16, 0x10);
    Pow2Square(n / 8, 0x100);
    Pow2Square(n / 4, 0x1_0000);
    Pow2Square(n / 2, 0x1_0000_0000);
  }

  lemma HalfWordRange(n: nat)
    requires n == WORD_SIZE / 2
    ensures Pow2(n) == 0x1_0000_0000
  {
    assert Pow2(4) == 16;
    Pow2Square(n / 8, 0x10);
    Pow2Square(n / 4, 0x100);
    Pow2Square(n / 2, 0x1_0000);
  }

  /** `word & (1 << d) != 0` */
  predicate Bit(word: nat, d: nat) {
    if d == 0 then word % 2 == 1 else Bit(word / 2, d - 1)
  }

  /** `word << 1` */
  function ShiftOne(word: U64): U64 {
    (2 * word) % (U64_MAX + 1)
  }

  /** `word << k`, for a shift amount the machine accepts. */
  function ShiftLeft(word: U64, k: nat): U64
    requires k < WORD_SIZE
  {
    if k == 0 then word else ShiftOne(ShiftLeft(word, k - 1))
  }

  /** `word | (1 << k)` */
  function SetBit(word: nat, k: nat): nat {
    if k == 0 then word - word % 2 + 1 else 2 * SetBit(word / 2, k - 1) + word % 2
  }

  lemma {:induction false} SetBitBounded(word: nat, k: nat, n: nat)
    requires k < n && word < Pow2(n)
    ensures SetBit(word, k) < Pow2(n)
  {
    var half := Pow2(n - 1);
    assert Pow2(n) == 2 * half;
    if k == 0 {
    } else {
      SetBitBounded(word / 2, k - 1, n - 1);
      assert SetBit(word / 2, k - 1) < half;
    }
  }

  lemma {:induction false} SetBitSets(word: nat, k: nat, d: nat)
    ensures Bit(SetBit(word, k), d) <==> (d == k || Bit(word, d))
  {
    if k == 0 {
      assert d > 0 ==> SetBit(word, k) / 2 == word / 2;
    } else {
      var half := SetBit(word / 2, k - 1);
      assert SetBit(word, k) / 2 == half && SetBit(word, k) % 2 == word % 2;
      if d > 0 {
        SetBitSets(word / 2, k - 1, d - 1);
      }
    }
  }

  lemma HalveRemainder(word: nat, p: nat)
    requires p > 0
    ensures (word % (2 * p)) / 2 == (word / 2) % p
    ensures (word % (2 * p)) % 2 == word % 2
  {
    var q, r := word / (2 * p), word % (2 * p);
    assert word == p * (2 * q) + r && 0 <= r < 2 * p;
    assert word / 2 == p * q + r / 2 by {
      assert word == 2 * (p * q) + r;
    }
    assert 0 <= r / 2 < p;
    RemainderOf(p, q, r / 2);
  }

  lemma RemainderOf(p: nat, q: nat, r: nat)
    requires r < p
    ensures (p * q + r) % p == r && (p * q + r) / p == q
  {
    var n := p * q + r;
    assert n == p * (n / p) + n % p;
    assert p * (n / p - q) == r - n % p;
    QuotientUnique(p, n / p - q, r - n % p);
  }

  lemma MultipleAtLeast(p: nat, k: nat)
    requires k >= 1
    ensures p * k >= p
  {
  }

  lemma QuotientUnique(p: nat, k: int, r: int)
    requires r < p && r + p > 0 && p * k == r
    ensures k == 0 && r == 0
  {
    if k > 0 {
      MultipleAtLeast(p, k);
      assert false;
    } else {
      var j: nat := -k;
      assert p * j == -r;
      if j > 0 {
        MultipleAtLeast(p, j);
        assert false;
      }
    }
  }

  lemma {:induction false} LowBitsSurvive(word: nat, n: nat, d: nat)
    requires d < n
    ensures Bit(word % Pow2(n), d) <==> Bit(word, d)
  {
    HalveRemainder(word, Pow2(n - 1));
    if d == 0 {
    } else {
      LowBitsSurvive(word / 2, n - 1, d - 1);
    }
  }

  lemma ShiftOneMoves(word: U64, d: nat)
    requires d < WORD_SIZE
    ensures Bit(ShiftOne(word), d) <==> (d > 0 && Bit(word, d - 1))
  {
    var n := WORD_SIZE;
    WordRange(n);
    LowBitsSurvive(2 * word, n, d);
    assert Bit(2 * word, d) <==> (d > 0 && Bit(word, d - 1)) by {
      assert (2 * word) % 2 == 0 && (2 * word) / 2 == word;
    }
  }

  lemma {:induction false} ShiftLeftMoves(word: U64, k: nat, d: nat)
    requires k < WORD_SIZE && d < WORD_SIZE
    ensures Bit(ShiftLeft(word, k), d) <==> (k <= d && Bit(word, d - k))
  {
    if k == 0 {
    } else {
      ShiftOneMoves(ShiftLeft(word, k - 1), d);
      if d > 0 {
        ShiftLeftMoves(word, k - 1, d - 1);
      }
    }
  }
}
