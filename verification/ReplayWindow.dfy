/** The 64-packet replay window of a pairwise session.

The window keeps only the highest accepted sequence and one machine word.  The lemmas
relate that word to the set of every sequence accepted so far.
*/
module ReplayWindows {
  import opened Wrappers
  import opened Words

  /** The two fields of a window, as a value. */
  datatype Window = Window(highest: Option<U64>, bitmap: U64)

  const EMPTY_WINDOW := Window(None, 0)

  predicate CanAccept(w: Window, sequence: U64) {
    match w.highest
    case None => true
    case Some(highest) =>
      sequence > highest ||
      (var distance := highest - sequence;
       distance < WORD_SIZE && !Bit(w.bitmap, distance))
  }

  /** Recording a sequence.  The precondition is the only way `open` reaches this step; it
      is what keeps every shift amount below the word size. */
  function Mark(w: Window, sequence: U64): Window
    requires CanAccept(w, sequence)
  {
    match w.highest
    case None => Window(Some(sequence), 1)
    case Some(highest) =>
      if sequence > highest then
        var distance := sequence - highest;
        Window(Some(sequence),
               if distance >= WORD_SIZE then 1
               else OrMask(ShiftLeft(w.bitmap, distance), 0))
      else
        Window(w.highest, OrMask(w.bitmap, highest - sequence))
  }

  /** `word | (1 << k)` as a word again. */
  function OrMask(word: U64, k: nat): U64
    requires k < WORD_SIZE
  {
    var n := WORD_SIZE;
    WordRange(n);
    SetBitBounded(word, k, n);
    SetBit(word, k)
  }

  /** The reference definition: `sequence` was never accepted, and it is not 64 or more
      behind any accepted one. */
  ghost predicate Acceptable(seen: set<U64>, sequence: U64) {
    sequence !in seen && forall s :: s in seen ==> s < sequence + WORD_SIZE
  }

  /** The window stands for exactly the accepted sequences `seen`: the highest is their
      maximum, and bit `d` says whether the sequence `d` below it is one of them. */
  ghost predicate Represents(w: Window, seen: set<U64>) {
    match w.highest
    case None => seen == {}
    case Some(highest) =>
      && highest in seen
      && (forall s :: s in seen ==> s <= highest)
      && (forall d :: 0 <= d < WORD_SIZE && d <= highest ==>
            (Bit(w.bitmap, d) <==> highest - d in seen))
  }

  /** The fast test answers the reference question. */
  lemma CanAcceptIsExact(w: Window, seen: set<U64>, sequence: U64)
    requires Represents(w, seen)
    ensures CanAccept(w, sequence) <==> Acceptable(seen, sequence)
  {
    if w.highest.Some? && sequence <= w.highest.value {
      var distance := w.highest.value - sequence;
      if distance < WORD_SIZE {
        assert Bit(w.bitmap, distance) <==> w.highest.value - distance in seen;
      } else {
        assert w.highest.value in seen;
      }
    }
  }

  lemma MarkAhead(w: Window, seen: set<U64>, sequence: U64)
    requires Represents(w, seen)
    requires w.highest.Some? && sequence > w.highest.value
    ensures Represents(Mark(w, sequence), seen + {sequence})
  {
    var highest := w.highest.value;
    var k := sequence - highest;
    forall d | 0 <= d < WORD_SIZE && d <= sequence
      ensures Bit(Mark(w, sequence).bitmap, d) <==> sequence - d in seen + {sequence}
    {
      if k >= WORD_SIZE {
        SetBitSets(0, 0, d);
        NoBits(d);
      } else {
        SetBitSets(ShiftLeft(w.bitmap, k), 0, d);
        ShiftLeftMoves(w.bitmap, k, d);
        if k <= d {
          assert Bit(w.bitmap, d - k) <==> highest - (d - k) in seen;
        }
      }
    }
  }

  lemma {:induction false} NoBits(d: nat)
    ensures !Bit(0, d)
  {
    if d == 0 {
    } else {
      NoBits(d - 1);
    }
  }

  /** Marking an accepted sequence adds exactly that sequence, and shifts by less than
      the word size. */
  lemma MarkRepresents(w: Window, seen: set<U64>, sequence: U64)
    requires Represents(w, seen) && CanAccept(w, sequence)
    ensures Represents(Mark(w, sequence), seen + {sequence})
    ensures w.highest.Some? && sequence <= w.highest.value ==>
              w.highest.value - sequence < WORD_SIZE
  {
    if w.highest.None? {
      forall d: nat ensures Bit(1, d) <==> d == 0 {
        SetBitSets(0, 0, d);
        NoBits(d);
      }
    } else if sequence > w.highest.value {
      MarkAhead(w, seen, sequence);
    } else {
      var highest := w.highest.value;
      forall d | 0 <= d < WORD_SIZE && d <= highest
        ensures Bit(Mark(w, sequence).bitmap, d) <==> highest - d in seen + {sequence}
      {
        SetBitSets(w.bitmap, highest - sequence, d);
        assert Bit(w.bitmap, d) <==> highest - d in seen;
      }
    }
  }

  /** The mutable window a session owns. */
  class ReplayWindow {
    var highest: Option<U64>
    var bitmap: U64

    function State(): Window
      reads this
    {
      Window(highest, bitmap)
    }

    constructor ()
      ensures State() == EMPTY_WINDOW && Represents(State(), {})
    {
      highest := None;
      bitmap := 0;
    }

    method MarkSequence(sequence: U64)
      requires CanAccept(State(), sequence)
      modifies this
      ensures State() == Mark(old(State()), sequence)
      ensures forall seen :: old(Represents(State(), seen)) ==> Represents(State(), seen + {sequence})
    {
      forall seen | Represents(State(), seen)
        ensures Represents(Mark(State(), sequence), seen + {sequence})
      {
        MarkRepresents(State(), seen, sequence);
      }
      if highest.None? {
        highest := Some(sequence);
        bitmap := 1;
        return;
      }
      if sequence > highest.value {
        var distance := sequence - highest.value;
        bitmap := if distance >= WORD_SIZE then 1 else OrMask(ShiftLeft(bitmap, distance), 0);
        highest := Some(sequence);
        return;
      }
      bitmap := OrMask(bitmap, highest.value - sequence);
    }
  }
}
