/** Unsigned words as naturals, with the shifts, masks and bitwise-or the C encoder uses.
  * Every operator is defined by halving, so a fact about bits is an induction on the word. */
module Bits {

  /** `w >> n`. */
  function Shr(w: nat, n: nat): nat {
    if n == 0 then w else Shr(w / 2, n - 1)
  }

  /** `w << n`, in a type wide enough to hold the result. */
  function Shl(w: nat, n: nat): nat {
    if n == 0 then w else 2 * Shl(w, n - 1)
  }

  /** `w & mask`, for the mask of the `n` lowest bits. */
  function Low(w: nat, n: nat): nat {
    if n == 0 then 0 else 2 * Low(w / 2, n - 1) + w % 2
  }

  /** `a | b`. */
  function Or(a: nat, b: nat): nat
    decreases a + b
  {
    if a == 0 && b == 0 then 0
    else 2 * Or(a / 2, b / 2) + (if a % 2 == 1 || b % 2 == 1 then 1 else 0)
  }

  /** `(w >> i) & 1`. */
  predicate Bit(w: nat, i: nat) {
    Shr(w, i) % 2 == 1
  }

  function BitValue(b: bool): nat {
    if b then 1 else 0
  }

  /** Shift `w`'s bits `n-1 .. 0` into `acc`, most significant first. */
  function ShiftIn(acc: nat, w: nat, n: nat): nat
    decreases n
  {
    if n == 0 then acc else ShiftIn(2 * acc + BitValue(Bit(w, n - 1)), w, n - 1)
  }

  /** How many of the `n` lowest bits of `w` are set. */
  function PopCount(w: nat, n: nat): nat {
    if n == 0 then 0 else PopCount(w, n - 1) + BitValue(Bit(w, n - 1))
  }

  lemma {:induction false} ShrStep(w: nat, n: nat)
    ensures Shr(w, n + 1) == Shr(w, n) / 2
    decreases n
  {
    if n > 0 {
      ShrStep(w / 2, n - 1);
    }
  }

  lemma {:induction false} ShrShr(w: nat, n: nat, i: nat)
    ensures Shr(Shr(w, n), i) == Shr(w, n + i)
    decreases n
  {
    if n > 0 {
      ShrShr(w / 2, n - 1, i);
    }
  }

  lemma BitOfShr(w: nat, n: nat, i: nat)
    ensures Bit(Shr(w, n), i) == Bit(w, n + i)
  {
    ShrShr(w, n, i);
  }

  lemma {:induction false} BitOfZero(i: nat)
    ensures !Bit(0, i)
  {
    if i > 0 {
      BitOfZero(i - 1);
    }
  }

  lemma {:induction false} BitOfShl(w: nat, n: nat, i: nat)
    ensures Bit(Shl(w, n), i) == (i >= n && Bit(w, i - n))
    decreases n
  {
    if n > 0 && i > 0 {
      BitOfShl(w, n - 1, i - 1);
      assert Shl(w, n) / 2 == Shl(w, n - 1);
    }
  }

  lemma {:induction false} BitOfLow(w: nat, n: nat, i: nat)
    ensures Bit(Low(w, n), i) == (i < n && Bit(w, i))
    decreases n
  {
    if n == 0 {
      BitOfZero(i);
    } else if i > 0 {
      BitOfLow(w / 2, n - 1, i - 1);
      assert Low(w, n) / 2 == Low(w / 2, n - 1);
    }
  }

  lemma {:induction false} BitOfOr(a: nat, b: nat, i: nat)
    ensures Bit(Or(a, b), i) == (Bit(a, i) || Bit(b, i))
    decreases i
  {
    if a == 0 && b == 0 {
      BitOfZero(i);
    } else if i > 0 {
      BitOfOr(a / 2, b / 2, i - 1);
      assert Or(a, b) / 2 == Or(a / 2, b / 2);
    }
  }

  /** A word is determined by its bits. */
  lemma {:induction false} BitsDetermine(a: nat, b: nat)
    requires forall i: nat :: Bit(a, i) == Bit(b, i)
    ensures a == b
    decreases a + b
  {
    if a != 0 || b != 0 {
      forall i: nat ensures Bit(a / 2, i) == Bit(b / 2, i) {
        assert Bit(a, i + 1) == Bit(b, i + 1);
      }
      assert Bit(a, 0) == Bit(b, 0);
      BitsDetermine(a / 2, b / 2);
    }
  }

  /** A word that fits in `n` bits has no bit at or above `n`, and is its own low part. */
  lemma FitsMeansLow(w: nat, n: nat)
    requires Shr(w, n) == 0
    ensures Low(w, n) == w
    ensures forall i: nat :: i >= n ==> !Bit(w, i)
  {
    forall i: nat ensures Bit(Low(w, n), i) == Bit(w, i) && (i >= n ==> !Bit(w, i)) {
      BitOfLow(w, n, i);
      if i >= n {
        BitOfShr(w, n, i - n);
        BitOfZero(i - n);
      }
    }
    BitsDetermine(Low(w, n), w);
  }

  lemma {:induction false} LowFits(w: nat, n: nat)
    ensures Shr(Low(w, n), n) == 0
    decreases n
  {
    if n > 0 {
      LowFits(w / 2, n - 1);
      assert Low(w, n) / 2 == Low(w / 2, n - 1);
    }
  }

  /** Shifting in `n` bits on top of `acc` gives a word whose high part is `acc` and whose low part is `w`'s. */
  lemma {:induction false} ShiftInSplits(acc: nat, w: nat, n: nat)
    ensures Shr(ShiftIn(acc, w, n), n) == acc
    ensures forall i: nat :: i < n ==> Bit(ShiftIn(acc, w, n), i) == Bit(w, i)
    decreases n
  {
    if n > 0 {
      var acc' := 2 * acc + BitValue(Bit(w, n - 1));
      ShiftInSplits(acc', w, n - 1);
      ShrStep(ShiftIn(acc, w, n), n - 1);
    }
  }

  /** Shifting all of a word's bits in rebuilds it exactly when the accumulator starts as its high part. */
  lemma ShiftInRebuilds(acc: nat, w: nat, n: nat)
    ensures ShiftIn(acc, w, n) == w <==> acc == Shr(w, n)
  {
    ShiftInSplits(acc, w, n);
    if acc == Shr(w, n) {
      var r := ShiftIn(acc, w, n);
      forall i: nat ensures Bit(r, i) == Bit(w, i) {
        if i >= n {
          BitOfShr(r, n, i - n);
          BitOfShr(w, n, i - n);
        }
      }
      BitsDetermine(r, w);
    }
  }

  /** Shifting in from zero keeps the low part. */
  lemma ShiftInFromZero(w: nat, n: nat)
    ensures ShiftIn(0, w, n) == Low(w, n)
  {
    ShiftInSplits(0, w, n);
    var r := ShiftIn(0, w, n);
    forall i: nat ensures Bit(r, i) == Bit(Low(w, n), i) {
      BitOfLow(w, n, i);
      if i >= n {
        BitOfShr(r, n, i - n);
        BitOfZero(i - n);
      }
    }
    BitsDetermine(r, Low(w, n));
  }

  /** Adding bit `n` to the low part of width `n`, least significant bit first. */
  lemma LowGrows(w: nat, n: nat)
    ensures Or(Low(w, n), Shl(BitValue(Bit(w, n)), n)) == Low(w, n + 1)
  {
    var v := BitValue(Bit(w, n));
    var r := Or(Low(w, n), Shl(v, n));
    forall i: nat ensures Bit(r, i) == Bit(Low(w, n + 1), i) {
      BitOfOr(Low(w, n), Shl(v, n), i);
      BitOfLow(w, n, i);
      BitOfLow(w, n + 1, i);
      BitOfShl(v, n, i);
      if i > n {
        BitOfZero(i - n - 1);
      }
    }
    BitsDetermine(r, Low(w, n + 1));
  }

  lemma ShiftInNothing(acc: nat, w: nat)
    ensures ShiftIn(acc, w, 0) == acc
  {
  }

  lemma ShiftInStep(acc: nat, w: nat, n: nat)
    requires n > 0
    ensures ShiftIn(acc, w, n) == ShiftIn(2 * acc + BitValue(Bit(w, n - 1)), w, n - 1)
  {
  }

  lemma {:induction false} OneShifted(k: nat, n: nat)
    requires k <= n
    ensures Shl(1, k) <= Shl(1, n)
    decreases n
  {
    if k < n {
      OneShifted(k, n - 1);
    }
  }

  lemma {:induction false} SmallFits(w: nat, n: nat)
    requires w < Shl(1, n)
    ensures Shr(w, n) == 0
    decreases n
  {
    if n > 0 {
      SmallFits(w / 2, n - 1);
    }
  }
}
