/** Reading an RC6 capture back. */
module IrRc6 {
  import opened Bits
  import opened IrWave
  import opened IrHalves

  /** How many half-bits the bits `n-1 .. 0` take. */
  function Rc6Length(n: nat): nat {
    2 * n + if n > 15 then 2 else 0
  }

  /** From bit `i`'s place, counted from the end of the half-bits, level `a` is held for the bit's width
    * and then level `b`. */
  predicate Rc6Shows(h: seq<bool>, i: nat, a: bool, b: bool) {
    var p, w := |h| - Rc6Length(i + 1), Rc6Width(i);
    p >= 0 && h[p] == a && h[p + w] == b && (w == 2 ==> h[p + 1] == a && h[p + 3] == b)
  }

  /** The leader is six marks and two spaces, and the start bit is a mark then a space. */
  predicate Rc6Opening(h: seq<bool>)
    requires |h| == 50
  {
    (forall i :: 0 <= i < 6 ==> h[i]) && !h[6] && !h[7] && h[8] && !h[9]
  }

  /** Bit `i` keeps one level for its width and the other level for its width. */
  predicate Rc6BitSound(h: seq<bool>, i: nat)
  {
    Rc6Shows(h, i, true, false) || Rc6Shows(h, i, false, true)
  }

  /** The word read down to bit `i`, on top of the start bit: 1 is a mark then a space. */
  function Rc6Word(h: seq<bool>, i: nat): nat
    requires |h| == 50 && i <= 19
    decreases 19 - i
  {
    if i == 19 then 1
    else 2 * Rc6Word(h, i + 1) + BitValue(h[50 - Rc6Length(i + 1)] && !h[50 - Rc6Length(i + 1) + Rc6Width(i)])
  }

  /** The decoding loop of the RC6 test: `ok` collects all its checks on the half-bits. */
  method DecodeRc6(h: seq<bool>) returns (ok: bool, decoded: nat)
    requires |h| == 50
    ensures ok <==> Rc6Opening(h) && forall i :: 0 <= i <= 18 ==> Rc6BitSound(h, i)
    ensures decoded == Rc6Word(h, 0)
  {
    hide Rc6BitSound, Rc6Opening;
    decoded := 1;
    ok := CheckOpening(h);
    var pos := 10;
    for i := 19 downto 0
      invariant pos == 50 - Rc6Length(i)
      invariant ok <==> Rc6Opening(h) && forall j :: i <= j <= 18 ==> Rc6BitSound(h, j)
      invariant decoded == Rc6Word(h, i)
    {
      var width := if i == 15 then 2 else 1;
      var a, b := h[pos], h[pos + width];
      var steady := IsSteady(h, pos, width);
      SoundMeans(h, i);
      ok := ok && steady && a != b;
      decoded := 2 * decoded + BitValue(a && !b);
      pos := pos + 2 * width;
    }
  }

  /** The checks of the RC6 test before its bit loop. */
  method CheckOpening(h: seq<bool>) returns (ok: bool)
    requires |h| == 50
    ensures ok <==> Rc6Opening(h)
  {
    ok := true;
    for i := 0 to 6
      invariant ok <==> forall j :: 0 <= j < i ==> h[j]
    {
      ok := ok && h[i];
    }
    ok := ok && !h[6] && !h[7] && h[8] && !h[9];
  }

  lemma SoundMeans(h: seq<bool>, i: nat)
    requires |h| == 50 && i <= 18
    ensures var p, w := 50 - Rc6Length(i + 1), Rc6Width(i);
            Rc6BitSound(h, i) <==> h[p] != h[p + w] && (w == 2 ==> h[p + 1] == h[p] && h[p + 3] == h[p + 2])
  {
  }

  /** The inner check of the RC6 test: both halves of a bit keep their level. */
  method IsSteady(h: seq<bool>, pos: nat, width: nat) returns (steady: bool)
    requires 1 <= width <= 2 && pos + 2 * width <= |h|
    ensures steady <==> (width == 2 ==> h[pos + 1] == h[pos] && h[pos + 3] == h[pos + 2])
  {
    steady := true;
    for k := 1 to width
      invariant steady <==> (k == 2 ==> h[pos + 1] == h[pos] && h[pos + 3] == h[pos + 2])
    {
      steady := steady && h[pos + k] == h[pos] && h[pos + width + k] == h[pos + width];
    }
  }

  lemma Rc6BitHalves(bit: bool, width: nat)
    requires 1 <= width <= 2
    ensures var h := Intended(Rc6Bit(bit, width), 444);
            |h| == 2 * width && h[0] == bit && h[width] == !bit && (width == 2 ==> h[1] == bit && h[3] == !bit)
    ensures Excess(Rc6Bit(bit, width), 444) == 0
  {
    var us := width * 444;
    QuotIsDiv(us, 444);
    PairHalves(bit, us, width, !bit, us, width, 444);
    RepeatIs(bit, width);
    RepeatIs(!bit, width);
  }

  lemma Rc6ShowsBehind(head: seq<bool>, h: seq<bool>, i: nat, a: bool, b: bool)
    requires Rc6Shows(h, i, a, b)
    ensures Rc6Shows(head + h, i, a, b)
  {
  }

  lemma PairLength(bit: bool, width: nat)
    ensures |Rc6Bit(bit, width)| == 2
  {
  }

  /** The first bit of the half-bits, when all of them are those of `i + 1` bits. */
  lemma Rc6ShowsInFront(head: seq<bool>, h: seq<bool>, i: nat, a: bool, b: bool)
    requires var w := Rc6Width(i);
             |head| == 2 * w && head[0] == a && head[w] == b && (w == 2 ==> head[1] == a && head[3] == b)
    requires |h| == Rc6Length(i)
    ensures |head + h| == Rc6Length(i + 1) && Rc6Shows(head + h, i, a, b)
  {
  }

  /** The intended half-bit levels of RC6 bits `n-1 .. 0`. */
  lemma {:induction false} Rc6HalvesAre(code: nat, n: nat)
    ensures |Rc6Bits(code, n)| == 2 * n
    ensures Excess(Rc6Bits(code, n), 444) == 0
    ensures |Intended(Rc6Bits(code, n), 444)| == Rc6Length(n)
    ensures forall i :: 0 <= i < n ==> Rc6Shows(Intended(Rc6Bits(code, n), 444), i, Bit(code, i), !Bit(code, i))
  {
    hide Intended, Excess, Bit, Rc6Shows, Rc6Bit;
    if n == 0 {
      NoHalves(444);
    } else {
      var b, w := Bit(code, n - 1), Rc6Width(n - 1);
      assert |Rc6Bit(b, w)| == 2 by { PairLength(b, w); }
      Rc6HalvesAre(code, n - 1);
      Rc6BitHalves(b, w);
      IntendedConcat(Rc6Bit(b, w), Rc6Bits(code, n - 1), 444);
      ExcessConcat(Rc6Bit(b, w), Rc6Bits(code, n - 1), 444);
      var head, rest := Intended(Rc6Bit(b, w), 444), Intended(Rc6Bits(code, n - 1), 444);
      Rc6ShowsInFront(head, rest, n - 1, b, !b);
      forall i | 0 <= i < n ensures Rc6Shows(head + rest, i, Bit(code, i), !Bit(code, i)) {
        if i < n - 1 {
          Rc6ShowsBehind(head, rest, i, Bit(code, i), !Bit(code, i));
        }
      }
    }
  }

  /** The leader's remainders, 2 and 1 microseconds, are the only ones in a frame. */
  lemma Rc6OpeningHalves()
    ensures Intended(Rc6Leader() + Rc6Bit(true, 1), 444)
         == [true, true, true, true, true, true, false, false, true, false]
    ensures Excess(Rc6Leader() + Rc6Bit(true, 1), 444) == 3
  {
    var leader, start := Rc6Leader(), Rc6Bit(true, 1);
    QuotIsDiv(2666, 444);
    QuotIsDiv(889, 444);
    assert leader[1..] == [Segment(false, 889)] && leader[1..][1..] == [];
    assert Intended(leader, 444) == Repeat(true, 6) + Repeat(false, 2);
    assert Excess(leader, 444) == 3;
    Rc6BitHalves(true, 1);
    IntendedConcat(leader, start, 444);
    ExcessConcat(leader, start, 444);
  }

  lemma OpeningLength()
    ensures |Rc6Leader() + Rc6Bit(true, 1)| == 4
  {
  }

  /** The half-bits of a whole captured RC6 frame. */
  lemma Rc6Captured(code: nat)
    ensures var tape := RecordAll(BLANK, Rc6Frame(code));
            var h := Halves(tape.segs, RC6_BIT_TIME);
            !tape.overflow && |h| == 50 && Rc6Opening(h) &&
            forall i :: 0 <= i <= 18 ==> Rc6Shows(h, i, Bit(code, i), !Bit(code, i))
  {
    hide Halves, Intended, Excess, RecordAll, Runs, TotalUs, Rc6Bits, Bit, Shr, Rc6Leader, Rc6Bit, PopCount, NecFrame, Rc5Frame;
    assert |Rc6Leader() + Rc6Bit(true, 1)| == 4 by { OpeningLength(); }
    var opening, bits := Rc6Leader() + Rc6Bit(true, 1), Rc6Bits(code, 19);
    Rc6OpeningHalves();
    Rc6HalvesAre(code, 19);
    IntendedConcat(opening, bits, 444);
    ExcessConcat(opening, bits, 444);
    FrameAirtime(code);
    NoHalves(444);
    FitsByRuns(BLANK, Rc6Frame(code));
    RequantiseRecovers(BLANK, Rc6Frame(code), 444);
    var head := Intended(opening, 444);
    var h := Halves(RecordAll(BLANK, Rc6Frame(code)).segs, RC6_BIT_TIME);
    assert h == head + Intended(bits, 444);
    forall i | 0 <= i <= 18 ensures Rc6Shows(h, i, Bit(code, i), !Bit(code, i)) {
      Rc6ShowsBehind(head, Intended(bits, 444), i, Bit(code, i), !Bit(code, i));
    }
  }

  lemma {:induction false} Rc6ReadsBits(code: nat, h: seq<bool>, i: nat)
    requires |h| == 50 && i <= 19
    requires forall j :: 0 <= j <= 18 ==> Rc6Shows(h, j, Bit(code, j), !Bit(code, j))
    ensures ShiftIn(Rc6Word(h, i), code, i) == ShiftIn(1, code, 19)
    decreases 19 - i
  {
    hide Bit, ShiftIn;
    if i < 19 {
      Rc6ReadsBits(code, h, i + 1);
      ShiftInStep(Rc6Word(h, i + 1), code, i + 1);
      assert Rc6Shows(h, i, Bit(code, i), !Bit(code, i));
    }
  }

  /** Emit, merge, requantise, decode: every check of the decoder passes for every word, and the word
    * comes back exactly when it is a 20-bit word with its start bit set. */
  lemma Rc6RoundTrip(code: nat)
    ensures var tape := RecordAll(BLANK, Rc6Frame(code));
            var h := Halves(tape.segs, RC6_BIT_TIME);
            !tape.overflow && |h| == 50 && Rc6Opening(h) &&
            (forall i :: 0 <= i <= 18 ==> Rc6BitSound(h, i)) &&
            Rc6Word(h, 0) == ShiftIn(1, code, 19) &&
            (Rc6Word(h, 0) == code <==> Shr(code, 19) == 1)
  {
    hide Halves, RecordAll, Rc6Bits, Bit, ShiftIn, Shr;
    Rc6Captured(code);
    var h := Halves(RecordAll(BLANK, Rc6Frame(code)).segs, RC6_BIT_TIME);
    Rc6ReadsBits(code, h, 0);
    ShiftInNothing(Rc6Word(h, 0), code);
    ShiftInRebuilds(1, code, 19);
    forall i | 0 <= i <= 18 ensures Rc6BitSound(h, i) {
      assert Rc6Shows(h, i, Bit(code, i), !Bit(code, i));
    }
  }

  /** A sound bit's half-bits are determined by what is read there. */
  lemma Rc6BitDetermines(h: seq<bool>, g: seq<bool>, i: nat)
    requires |h| == 50 && |g| == 50 && i <= 18 && Rc6BitSound(h, i) && Rc6BitSound(g, i)
    requires var p, w := 50 - Rc6Length(i + 1), Rc6Width(i);
             (h[p] && !h[p + w]) == (g[p] && !g[p + w])
    ensures forall j :: 50 - Rc6Length(i + 1) <= j < 50 - Rc6Length(i) ==> h[j] == g[j]
  {
    hide Rc6BitSound;
    SoundMeans(h, i);
    SoundMeans(g, i);
  }

  lemma Rc6WordStep(h: seq<bool>, i: nat)
    requires |h| == 50 && i < 19
    ensures var p, w := 50 - Rc6Length(i + 1), Rc6Width(i);
            Rc6Word(h, i) == 2 * Rc6Word(h, i + 1) + BitValue(h[p] && !h[p + w])
  {
  }

  /** Where both are sound, the word read determines the half-bits up to any bit. */
  lemma {:induction false} Rc6WordDetermines(h: seq<bool>, g: seq<bool>, i: nat)
    requires |h| == 50 && |g| == 50 && i <= 19 && Rc6Word(h, i) == Rc6Word(g, i)
    requires Rc6Opening(h) && Rc6Opening(g)
    requires forall j :: 0 <= j <= 18 ==> Rc6BitSound(h, j) && Rc6BitSound(g, j)
    ensures forall j :: 0 <= j < 50 - Rc6Length(i) ==> h[j] == g[j]
    decreases 19 - i
  {
    hide Rc6BitSound, Rc6Word;
    if i < 19 {
      Rc6WordStep(h, i);
      Rc6WordStep(g, i);
      Rc6WordDetermines(h, g, i + 1);
      Rc6BitDetermines(h, g, i);
    }
  }

  lemma {:induction false} Rc6WordStarts(h: seq<bool>, i: nat)
    requires |h| == 50 && i <= 19
    ensures Shr(Rc6Word(h, i), 19 - i) == 1
    decreases 19 - i
  {
    if i < 19 {
      Rc6WordStarts(h, i + 1);
    }
  }

  /** The decoder accepts nothing but what the encoder emits: half-bits that pass all its checks are those of the captured
    * frame of the very word it reads. */
  lemma Rc6AcceptsOnlyFrames(h: seq<bool>)
    requires |h| == 50 && Rc6Opening(h) && forall i :: 0 <= i <= 18 ==> Rc6BitSound(h, i)
    ensures h == Halves(RecordAll(BLANK, Rc6Frame(Rc6Word(h, 0))).segs, RC6_BIT_TIME)
  {
    hide Halves, RecordAll, Rc6Frame, Shr, Rc6BitSound, Rc6Opening, Rc6Word;
    var w := Rc6Word(h, 0);
    var g := Halves(RecordAll(BLANK, Rc6Frame(w)).segs, RC6_BIT_TIME);
    Rc6RoundTrip(w);
    Rc6WordStarts(h, 0);
    Rc6WordDetermines(h, g, 0);
  }
}
