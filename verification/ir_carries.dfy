/** Which bits of a 32-bit code each protocol's waveform carries. */
module IrCarries {
  import opened Arithmetic
  import opened Bits
  import opened IrWave
  import opened IrRc5
  import opened IrRc6
  import opened IrNec

  /** The words agree on bits `lo .. hi`. */
  ghost predicate AgreeOn(a: nat, b: nat, lo: nat, hi: nat) {
    forall i: nat :: lo <= i <= hi ==> Bit(a, i) == Bit(b, i)
  }

  lemma BitOfOne(i: nat)
    ensures Bit(1, i) == (i == 0)
  {
    if i > 0 {
      BitOfZero(i - 1);
    }
  }

  lemma BitOfFlag(n: nat, i: nat)
    ensures Bit(Shl(1, n), i) == (i == n)
  {
    hide *;
    BitOfShl(1, n, i);
    if i >= n {
      BitOfOne(i - n);
    }
  }

  /** Field `n` bits wide taken from bit `from` and placed at bit `to`. */
  lemma BitOfField(code: nat, from: nat, n: nat, to: nat, i: nat)
    ensures Bit(Shl(Low(Shr(code, from), n), to), i) == (to <= i < to + n && Bit(code, i - to + from))
  {
    hide *;
    BitOfShl(Low(Shr(code, from), n), to, i);
    if i >= to {
      BitOfLow(Shr(code, from), n, i - to);
      BitOfShr(code, from, i - to);
    }
  }

  /** The 14-bit RC5 layout: start bits 13 and 12, toggle, address, command, nothing above. */
  predicate Rc5BitOf(code: nat, i: nat) {
    if i == 13 || i == 12 then true
    else if i == 11 then Bit(code, 31)
    else if 6 <= i <= 10 then Bit(code, i + 5)
    else i < 6 && Bit(code, i)
  }

  /** The 20-bit RC6 layout: start bit 19, mode, toggle, address, command, nothing above. */
  predicate Rc6BitOf(code: nat, i: nat) {
    if i == 19 then true
    else if 16 <= i <= 18 then Bit(code, i)
    else if i == 15 then Bit(code, 31)
    else if 7 <= i <= 14 then Bit(code, i + 1)
    else i < 7 && Bit(code, i)
  }

  lemma Rc5Layout(code: nat, i: nat)
    ensures Bit(CodeToRc5(code), i) == Rc5BitOf(code, i)
  {
    hide Bit, Or, Shl, Shr, Low;
    var starts := Or(Or(0, Shl(1, 13)), Shl(1, 12));
    var toggled := if Bit(code, 31) then Or(starts, Shl(1, 11)) else starts;
    var addressed := Or(toggled, Shl(Low(Shr(code, 11), 5), 6));
    BitOfZero(i);
    BitOfFlag(13, i);
    BitOfFlag(12, i);
    BitOfFlag(11, i);
    BitOfOr(0, Shl(1, 13), i);
    BitOfOr(Or(0, Shl(1, 13)), Shl(1, 12), i);
    BitOfOr(starts, Shl(1, 11), i);
    BitOfField(code, 11, 5, 6, i);
    BitOfOr(toggled, Shl(Low(Shr(code, 11), 5), 6), i);
    BitOfLow(code, 6, i);
    BitOfOr(addressed, Low(code, 6), i);
  }

  lemma Rc6Layout(code: nat, i: nat)
    ensures Bit(CodeToRc6(code), i) == Rc6BitOf(code, i)
  {
    hide Bit, Or, Shl, Shr, Low;
    var start := Or(0, Shl(1, 19));
    var mode := Or(start, Shl(Low(Shr(code, 16), 3), 16));
    var toggled := if Bit(code, 31) then Or(mode, Shl(1, 15)) else mode;
    var addressed := Or(toggled, Shl(Low(Shr(code, 8), 8), 7));
    BitOfZero(i);
    BitOfFlag(19, i);
    BitOfFlag(15, i);
    BitOfOr(0, Shl(1, 19), i);
    BitOfField(code, 16, 3, 16, i);
    BitOfOr(start, Shl(Low(Shr(code, 16), 3), 16), i);
    BitOfOr(mode, Shl(1, 15), i);
    BitOfField(code, 8, 8, 7, i);
    BitOfOr(toggled, Shl(Low(Shr(code, 8), 8), 7), i);
    BitOfLow(code, 7, i);
    BitOfOr(addressed, Low(code, 7), i);
  }

  /** Two codes give the same captured RC5 waveform exactly when they agree on the bits RC5 carries. */
  lemma Rc5Carries(a: nat, b: nat)
    ensures RecordAll(BLANK, Rc5Frame(CodeToRc5(a))) == RecordAll(BLANK, Rc5Frame(CodeToRc5(b))) <==>
            AgreeOn(a, b, 31, 31) && AgreeOn(a, b, 11, 15) && AgreeOn(a, b, 0, 5)
  {
    hide Bit, CodeToRc5, RecordAll, Rc5Frame, Rc5Word, Low, Halves;
    var x, y := CodeToRc5(a), CodeToRc5(b);
    forall i: nat ensures Bit(x, i) == Rc5BitOf(a, i) {
      Rc5Layout(a, i);
    }
    forall i: nat ensures Bit(y, i) == Rc5BitOf(b, i) {
      Rc5Layout(b, i);
    }
    if AgreeOn(a, b, 31, 31) && AgreeOn(a, b, 11, 15) && AgreeOn(a, b, 0, 5) {
      BitsDetermine(x, y);
    }
    if RecordAll(BLANK, Rc5Frame(x)) == RecordAll(BLANK, Rc5Frame(y)) {
      Rc5RoundTrip(x);
      Rc5RoundTrip(y);
      forall i: nat | i < 14 ensures Bit(x, i) == Bit(y, i) {
        BitOfLow(x, 14, i);
        BitOfLow(y, 14, i);
      }
      forall i: nat | i <= 5 ensures Bit(a, i) == Bit(b, i) {
        assert Bit(x, i) == Bit(y, i);
      }
      forall i: nat | 11 <= i <= 15 ensures Bit(a, i) == Bit(b, i) {
        assert Bit(x, i - 5) == Bit(y, i - 5);
      }
      assert Bit(x, 11) == Bit(y, 11);
    }
  }

  /** Two codes give the same captured RC6 waveform exactly when they agree on the bits RC6 carries. */
  lemma Rc6Carries(a: nat, b: nat)
    ensures RecordAll(BLANK, Rc6Frame(CodeToRc6(a))) == RecordAll(BLANK, Rc6Frame(CodeToRc6(b))) <==>
            AgreeOn(a, b, 31, 31) && AgreeOn(a, b, 16, 18) && AgreeOn(a, b, 8, 15) && AgreeOn(a, b, 0, 6)
  {
    hide Bit, CodeToRc6, RecordAll, Rc6Frame, Rc6Word, Shr, Halves, ShiftIn;
    var x, y := CodeToRc6(a), CodeToRc6(b);
    forall i: nat ensures Bit(x, i) == Rc6BitOf(a, i) {
      Rc6Layout(a, i);
    }
    forall i: nat ensures Bit(y, i) == Rc6BitOf(b, i) {
      Rc6Layout(b, i);
    }
    if AgreeOn(a, b, 31, 31) && AgreeOn(a, b, 16, 18) && AgreeOn(a, b, 8, 15) && AgreeOn(a, b, 0, 6) {
      BitsDetermine(x, y);
    }
    if RecordAll(BLANK, Rc6Frame(x)) == RecordAll(BLANK, Rc6Frame(y)) {
      Rc6RoundTrip(x);
      Rc6RoundTrip(y);
      ShiftInSplits(1, x, 19);
      ShiftInSplits(1, y, 19);
      forall i: nat | i < 19 ensures Bit(x, i) == Bit(y, i) {
        assert Bit(ShiftIn(1, x, 19), i) == Bit(ShiftIn(1, y, 19), i);
      }
      forall i: nat | i <= 6 || 16 <= i <= 18 ensures Bit(a, i) == Bit(b, i) {
        assert Bit(x, i) == Bit(y, i);
      }
      forall i: nat | 8 <= i <= 15 ensures Bit(a, i) == Bit(b, i) {
        assert Bit(x, i - 1) == Bit(y, i - 1);
      }
      assert Bit(x, 15) == Bit(y, 15);
    }
  }

  /** Two 32-bit codes give the same captured NEC waveform exactly when they are equal. */
  lemma NecCarries(a: nat, b: nat)
    requires Shr(a, 32) == 0 && Shr(b, 32) == 0
    ensures RecordAll(BLANK, NecFrame(a)) == RecordAll(BLANK, NecFrame(b)) <==> a == b
  {
    hide Low, Shr, Shl, Or, NecWord, NecFrame, RecordAll;
    NecRoundTrip(a);
    NecRoundTrip(b);
  }

  // ---- the words as numbers -------------------------------------------------------------

  /** Or-ing in a field below a shifted one adds it. */
  lemma {:induction false} OrAdds(x: nat, n: nat, b: nat)
    requires b < Shl(1, n)
    ensures Or(Shl(x, n), b) == Shl(x, n) + b
    decreases n
  {
    if n == 0 {
      OrZero(x);
    } else {
      assert Shl(x, n) / 2 == Shl(x, n - 1) && Shl(x, n) % 2 == 0;
      OrAdds(x, n - 1, b / 2);
      if x == 0 && b == 0 {
        ShlOfZero(n);
      }
    }
  }

  lemma {:induction false} ShlOfZero(n: nat)
    ensures Shl(0, n) == 0
  {
    if n > 0 {
      ShlOfZero(n - 1);
    }
  }

  lemma {:induction false} OrZero(x: nat)
    ensures Or(x, 0) == x
  {
    if x > 0 {
      OrZero(x / 2);
    }
  }

  lemma {:induction false} LowIsRemainder(w: nat, n: nat)
    ensures Low(w, n) < Shl(1, n) && Shl(1, n) > 0 && Low(w, n) == w % Shl(1, n)
    decreases n
  {
    if n > 0 {
      LowIsRemainder(w / 2, n - 1);
      HalvedRemainder(w, Shl(1, n - 1));
    }
  }

  lemma HalvedRemainder(w: nat, k: nat)
    requires k > 0
    ensures w % (2 * k) == 2 * (w / 2 % k) + w % 2
  {
    var h := w / 2;
    var q, r := h / k, h % k;
    assert h == k * q + r;
    assert w == 2 * k * q + (2 * r + w % 2) by {
      assert 2 * (k * q) == 2 * k * q;
    }
    QuotientIs(w, 2 * k, q, 2 * r + w % 2);
  }

  lemma {:induction false} ShrIsQuotient(w: nat, n: nat)
    ensures Shl(1, n) > 0 && Shr(w, n) == w / Shl(1, n)
    decreases n
  {
    if n > 0 {
      ShrIsQuotient(w / 2, n - 1);
      HalvedQuotient(w, Shl(1, n - 1));
    }
  }

  lemma HalvedQuotient(w: nat, k: nat)
    requires k > 0
    ensures w / (2 * k) == w / 2 / k
  {
    var h := w / 2;
    var q, r := h / k, h % k;
    assert h == k * q + r;
    assert w == 2 * k * q + (2 * r + w % 2) by {
      assert 2 * (k * q) == 2 * k * q;
    }
    QuotientIs(w, 2 * k, q, 2 * r + w % 2);
  }

  lemma PowersOfTwo()
    ensures Shl(1, 5) == 0x20 && Shl(1, 6) == 0x40 && Shl(1, 7) == 0x80 && Shl(1, 8) == 0x100 && Shl(1, 11) == 0x800
    ensures Shl(1, 3) == 8 && Shl(1, 12) == 0x1000 && Shl(1, 13) == 0x2000 && Shl(1, 15) == 0x8000 && Shl(1, 16) == 0x1_0000
    ensures Shl(1, 19) == 0x8_0000 && Shl(1, 31) == 0x8000_0000
  {
    assert Shl(1, 12) == 0x1000;
    assert Shl(1, 19) == 0x8_0000 by { ShlTwice(1, 12, 7); }
    assert Shl(1, 31) == 0x8000_0000 by { ShlTwice(1, 19, 12); ShlIsProduct(0x8_0000, 12); }
  }

  lemma {:induction false} ShlTwice(x: nat, m: nat, n: nat)
    ensures Shl(x, m + n) == Shl(Shl(x, m), n)
    decreases n
  {
    if n > 0 {
      ShlTwice(x, m, n - 1);
    }
  }

  lemma {:induction false} ShlIsProduct(x: nat, n: nat)
    ensures Shl(x, n) == x * Shl(1, n)
  {
    if n > 0 {
      ShlIsProduct(x, n - 1);
      assert 2 * (x * Shl(1, n - 1)) == x * (2 * Shl(1, n - 1));
    }
  }

  /** A field of `n` bits from bit `from`, as a number. */
  lemma FieldIs(code: nat, from: nat, n: nat)
    ensures Shl(1, from) > 0 && Shl(1, n) > 0 && Low(Shr(code, from), n) == code / Shl(1, from) % Shl(1, n) < Shl(1, n)
  {
    ShrIsQuotient(code, from);
    LowIsRemainder(Shr(code, from), n);
  }

  lemma OrAddsProduct(x: nat, n: nat, b: nat)
    requires b < Shl(1, n)
    ensures Or(x * Shl(1, n), b) == x * Shl(1, n) + b
  {
    ShlIsProduct(x, n);
    OrAdds(x, n, b);
  }

  /** The RC5 word of a code: 0x3000 for the start bits, the toggle at 0x800, five address bits above six command bits. */
  lemma Rc5WordIs(code: nat)
    ensures CodeToRc5(code) ==
      0x3000 + 0x800 * (code / 0x8000_0000 % 2) + 0x40 * (code / 0x800 % 0x20) + code % 0x40
  {
    hide Or, Shl, Shr, Low;
    PowersOfTwo();
    ShrIsQuotient(code, 31);
    FieldIs(code, 11, 5);
    LowIsRemainder(code, 6);
    var address, command := Low(Shr(code, 11), 5), Low(code, 6);
    var toggle := code / 0x8000_0000 % 2;
    ShlIsProduct(address, 6);
    OrOfZero(0x2000);
    OrAddsProduct(1, 13, 0x1000);
    OrAddsProduct(3, 12, 0x800);
    var upper := 0x3000 + 0x800 * toggle;
    OrAddsProduct(6 + toggle, 11, 0x40 * address);
    OrAddsProduct(0x20 * (6 + toggle) + address, 6, command);
  }

  lemma OrOfZero(x: nat)
    ensures Or(0, x) == x
  {
    forall i: nat ensures Bit(Or(0, x), i) == Bit(x, i) {
      BitOfOr(0, x, i);
      BitOfZero(i);
    }
    BitsDetermine(Or(0, x), x);
  }

  /** The RC6 word of a code: the start bit, three mode bits, the toggle, eight address bits, seven command bits. */
  lemma Rc6WordIs(code: nat)
    ensures CodeToRc6(code) ==
      0x8_0000 + 0x1_0000 * (code / 0x1_0000 % 8) + 0x8000 * (code / 0x8000_0000 % 2) + 0x80 * (code / 0x100 % 0x100) + code % 0x80
  {
    hide Or, Shl, Shr, Low;
    PowersOfTwo();
    ShrIsQuotient(code, 31);
    FieldIs(code, 16, 3);
    FieldIs(code, 8, 8);
    LowIsRemainder(code, 7);
    var mode, address, command := Low(Shr(code, 16), 3), Low(Shr(code, 8), 8), Low(code, 7);
    var toggle := code / 0x8000_0000 % 2;
    ShlIsProduct(mode, 16);
    ShlIsProduct(address, 7);
    OrOfZero(0x8_0000);
    OrAddsProduct(1, 19, 0x1_0000 * mode);
    OrAddsProduct(2 * (8 + mode), 15, 0x8000 * 0);
    OrAddsProduct(8 + mode, 16, 0x8000);
    OrAddsProduct(2 * (8 + mode) + toggle, 15, 0x80 * address);
    OrAddsProduct(0x100 * (2 * (8 + mode) + toggle) + address, 7, command);
  }

  /** The RC5 word of a code has fourteen bits. */
  lemma Rc5WordFits(code: nat)
    ensures Low(CodeToRc5(code), 14) == CodeToRc5(code)
  {
    hide *;
    var w := CodeToRc5(code);
    forall i: nat ensures Bit(Low(w, 14), i) == Bit(w, i) {
      BitOfLow(w, 14, i);
      Rc5Layout(code, i);
      NothingAbove(code, i);
    }
    BitsDetermine(Low(w, 14), w);
  }

  /** The RC6 word of a code has twenty bits, the first of them set. */
  lemma Rc6WordFits(code: nat)
    ensures Shr(CodeToRc6(code), 19) == 1
  {
    hide *;
    var w := CodeToRc6(code);
    forall i: nat ensures Bit(Shr(w, 19), i) == Bit(1, i) {
      BitOfShr(w, 19, i);
      Rc6Layout(code, 19 + i);
      NothingAbove(code, 19 + i);
      BitOfOne(i);
    }
    BitsDetermine(Shr(w, 19), 1);
  }

  lemma NothingAbove(code: nat, i: nat)
    ensures i >= 14 ==> !Rc5BitOf(code, i)
    ensures i >= 20 ==> !Rc6BitOf(code, i)
    ensures Rc6BitOf(code, 19)
  {
  }
}
