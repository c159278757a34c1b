/** Reading an RC5 capture back. */
module IrRc5 {
  import opened Bits
  import opened IrWave
  import opened IrHalves

  /** The word read from the first `k` half-bit pairs: 1 is a space then a mark. */
  function Rc5Word(h: seq<bool>, k: nat): nat
    requires 2 * k <= |h|
  {
    if k == 0 then 0 else 2 * Rc5Word(h, k - 1) + BitValue(!h[2 * k - 2] && h[2 * k - 1])
  }

  /** Bit `i`, counted from the end of the half-bits, has a mid-bit transition. */
  predicate MidBit(h: seq<bool>, i: nat)
    requires 2 * i + 2 <= |h|
  {
    h[|h| - 2 * i - 2] != h[|h| - 2 * i - 1]
  }

  /** The decoding loop of the RC5 test: `ok` collects its mid-bit checks. */
  method DecodeRc5(h: seq<bool>) returns (ok: bool, decoded: nat)
    requires |h| == 28
    ensures ok <==> forall i :: 0 <= i < 14 ==> MidBit(h, i)
    ensures decoded == Rc5Word(h, 14)
  {
    ok, decoded := true, 0;
    for i := 0 to 14
      invariant ok <==> forall j :: 14 - i <= j < 14 ==> MidBit(h, j)
      invariant decoded == Rc5Word(h, i)
    {
      var a, b := h[2 * i], h[2 * i + 1];
      assert a != b <==> MidBit(h, 13 - i);
      ok := ok && a != b;
      Rc5WordIsSmall(h, i + 1);
      decoded := (2 * decoded + BitValue(!a && b)) % 0x1_0000;
    }
  }

  lemma {:induction false} Rc5WordIsSmall(h: seq<bool>, k: nat)
    requires 2 * k <= |h| && k <= 14
    ensures Rc5Word(h, k) < Shl(1, k) <= 0x4000
  {
    if k > 0 {
      Rc5WordIsSmall(h, k - 1);
    }
    OneShifted(k, 14);
    assert Shl(1, 14) == 0x4000;
  }

  /** Bit `i`, counted from the end of the half-bits, is sent as a space then a mark for 1. */
  predicate Rc5Shows(h: seq<bool>, i: nat, bit: bool) {
    2 * i + 2 <= |h| && h[|h| - 2 * i - 2] == !bit && h[|h| - 2 * i - 1] == bit
  }

  lemma Rc5BitHalves(bit: bool)
    ensures Intended(Rc5Bit(bit), 889) == [!bit, bit] && Excess(Rc5Bit(bit), 889) == 0
  {
    QuotIsDiv(889, 889);
    PairHalves(!bit, 889, 1, bit, 889, 1, 889);
    assert Repeat(!bit, 1) == [!bit] && Repeat(bit, 1) == [bit];
  }

  lemma Rc5ShowsBehind(head: seq<bool>, h: seq<bool>, i: nat, bit: bool)
    requires Rc5Shows(h, i, bit)
    ensures Rc5Shows(head + h, i, bit)
  {
  }

  /** The intended half-bit levels of an RC5 word, bit by bit. */
  lemma {:induction false} Rc5HalvesAre(code: nat, n: nat)
    ensures |Rc5Bits(code, n)| == 2 * n
    ensures Excess(Rc5Bits(code, n), 889) == 0
    ensures |Intended(Rc5Bits(code, n), 889)| == 2 * n
    ensures forall i :: 0 <= i < n ==> Rc5Shows(Intended(Rc5Bits(code, n), 889), i, Bit(code, i))
  {
    hide Intended, Excess, Bit;
    if n == 0 {
      NoHalves(889);
    } else {
      var b := Bit(code, n - 1);
      Rc5HalvesAre(code, n - 1);
      Rc5BitHalves(b);
      IntendedConcat(Rc5Bit(b), Rc5Bits(code, n - 1), 889);
      ExcessConcat(Rc5Bit(b), Rc5Bits(code, n - 1), 889);
      var rest := Intended(Rc5Bits(code, n - 1), 889);
      forall i | 0 <= i < n ensures Rc5Shows([!b, b] + rest, i, Bit(code, i)) {
        if i < n - 1 {
          Rc5ShowsBehind([!b, b], rest, i, Bit(code, i));
        }
      }
    }
  }

  /** Reading the pairs of a word's own half-bit levels shifts the word's bits in. */
  lemma {:induction false} Rc5ReadsBits(code: nat, h: seq<bool>, k: nat)
    requires |h| == 28 && k <= 14
    requires forall i :: 0 <= i < 14 ==> Rc5Shows(h, i, Bit(code, i))
    ensures ShiftIn(Rc5Word(h, k), code, 14 - k) == ShiftIn(0, code, 14)
  {
    hide Bit, ShiftIn;
    if k > 0 {
      Rc5ReadsBits(code, h, k - 1);
      ShiftInStep(Rc5Word(h, k - 1), code, 15 - k);
      assert Rc5Shows(h, 14 - k, Bit(code, 14 - k));
    }
  }

  /** Emit, merge, requantise, decode: the low 14 bits of any word come back, and the capture neither
    * overflows nor changes the number of half-bits. */
  lemma Rc5RoundTrip(code: nat)
    ensures var tape := RecordAll(BLANK, Rc5Frame(code));
            var h := Halves(tape.segs, RC5_BIT_TIME);
            !tape.overflow && |h| == 28 && (forall i :: 0 <= i < 14 ==> MidBit(h, i)) &&
            Rc5Word(h, 14) == Low(code, 14)
  {
    hide Halves, Intended, Excess, RecordAll, Runs, TotalUs, Rc5Bits, Bit, ShiftIn, Low, PopCount, NecFrame, Rc6Frame;
    Rc5HalvesAre(code, 14);
    FrameAirtime(code);
    NoHalves(889);
    FitsByRuns(BLANK, Rc5Frame(code));
    RequantiseRecovers(BLANK, Rc5Frame(code), 889);
    var h := Halves(RecordAll(BLANK, Rc5Frame(code)).segs, RC5_BIT_TIME);
    assert h == Intended(Rc5Frame(code), 889);
    forall i | 0 <= i < 14 ensures MidBit(h, i) {
      assert Rc5Shows(h, i, Bit(code, i));
    }
    Rc5ReadsBits(code, h, 14);
    ShiftInFromZero(code, 14);
    ShiftInNothing(Rc5Word(h, 14), code);
  }

  /** Where both have a transition inside every bit, the word read determines the half-bits. */
  lemma {:induction false} Rc5WordDetermines(h: seq<bool>, g: seq<bool>, k: nat)
    requires |h| == 28 && |g| == 28 && k <= 14 && Rc5Word(h, k) == Rc5Word(g, k)
    requires forall i :: 0 <= i < 14 ==> MidBit(h, i) && MidBit(g, i)
    ensures h[..2 * k] == g[..2 * k]
  {
    if k > 0 {
      assert MidBit(h, 14 - k) && MidBit(g, 14 - k);
      Rc5WordDetermines(h, g, k - 1);
      assert h[..2 * k] == h[..2 * (k - 1)] + [h[2 * k - 2], h[2 * k - 1]];
      assert g[..2 * k] == g[..2 * (k - 1)] + [g[2 * k - 2], g[2 * k - 1]];
    }
  }

  /** The decoder accepts nothing but what the encoder emits: half-bits with a transition inside every bit are those of
    * the captured frame of the very word it reads. */
  lemma Rc5AcceptsOnlyFrames(h: seq<bool>)
    requires |h| == 28 && forall i :: 0 <= i < 14 ==> MidBit(h, i)
    ensures h == Halves(RecordAll(BLANK, Rc5Frame(Rc5Word(h, 14))).segs, RC5_BIT_TIME)
  {
    hide Halves, RecordAll, Rc5Frame, Low, Shl, Shr, MidBit, Rc5Word;
    var w := Rc5Word(h, 14);
    var g := Halves(RecordAll(BLANK, Rc5Frame(w)).segs, RC5_BIT_TIME);
    Rc5RoundTrip(w);
    Rc5WordIsSmall(h, 14);
    SmallFits(w, 14);
    FitsMeansLow(w, 14);
    Rc5WordDetermines(h, g, 14);
    assert h[..28] == h && g[..28] == g;
  }
}
