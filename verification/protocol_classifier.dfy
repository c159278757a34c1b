/** Naming a protocol from its pulse lengths, and why every captured waveform is named correctly. */
module ProtocolClassifier {
  import opened Arithmetic
  import opened Bits
  import opened IrWave
  import opened IrRc5
  import opened IrNec
  import opened IrCarries

  datatype Protocol = NEC | RC5 | RC6 | Unknown

  const TOL := 0.4

  function InRange(val: real, ref: real): bool {
    ref * (1.0 - TOL) <= val <= ref * (1.0 + TOL)
  }

  /** How many of the first `k` timings look like one RC5 half-bit. */
  function CountRc5(ts: seq<real>, k: nat): nat
    requires k <= |ts|
  {
    if k == 0 then 0 else CountRc5(ts, k - 1) + if InRange(ts[k - 1], 889.0) then 1 else 0
  }

  /** `classify_protocol`. */
  function Classify(ts: seq<real>): Protocol {
    if |ts| < 4 then Unknown
    else if InRange(ts[0], 9000.0) && InRange(ts[1], 4500.0) then NEC
    else if InRange(ts[0], 2666.0) && InRange(ts[1], 889.0) then RC6
    else if InRange(ts[0], 889.0) && CountRc5(ts, if |ts| < 20 then |ts| else 20) >= 4 then RC5
    else Unknown
  }

  /** The timings of a capture, each off by at most 40%. */
  ghost predicate Jittered(ts: seq<real>, segs: seq<Segment>) {
    |ts| == |segs| && forall i :: 0 <= i < |ts| ==> InRange(ts[i], segs[i].us as real)
  }

  /** Being in range means being off by at most two fifths of the reference. */
  lemma InRangeMeans(val: real, ref: real)
    ensures InRange(val, ref) <==> 5.0 * (ref - val) <= 2.0 * ref && 5.0 * (val - ref) <= 2.0 * ref
  {
  }

  /** The places of the timings among the first twenty that may be one RC5 half-bit, 533.4 to 1244.6 us. */
  ghost function Rc5Places(ts: seq<real>): set<int> {
    set i | 0 <= i < |ts| && i < 20 && 533.4 <= ts[i] <= 1244.6
  }

  predicate NecOpening(ts: seq<real>) {
    |ts| >= 4 && 5400.0 <= ts[0] <= 12600.0 && 2700.0 <= ts[1] <= 6300.0
  }

  predicate Rc6OpeningTimes(ts: seq<real>) {
    |ts| >= 4 && 1599.6 <= ts[0] <= 3732.4 && 533.4 <= ts[1] <= 1244.6
  }

  lemma {:induction false} CountIsPlaces(ts: seq<real>, k: nat)
    requires k <= |ts|
    ensures CountRc5(ts, k) == |set i | 0 <= i < k && 533.4 <= ts[i] <= 1244.6|
  {
    if k > 0 {
      CountIsPlaces(ts, k - 1);
      var before, after := set i | 0 <= i < k - 1 && 533.4 <= ts[i] <= 1244.6, set i | 0 <= i < k && 533.4 <= ts[i] <= 1244.6;
      assert after == if InRange(ts[k - 1], 889.0) then before + {k - 1} else before;
    }
  }

  /** Exactly which timings get which name, in microseconds: at least four of them and the NEC opening; the RC6 opening;
    * an RC5 half-bit first and at least four of them among the first twenty; and none of these. */
  lemma NamedExactly(ts: seq<real>)
    ensures Classify(ts) == NEC <==> NecOpening(ts)
    ensures Classify(ts) == RC6 <==> Rc6OpeningTimes(ts)
    ensures Classify(ts) == RC5 <==> |ts| >= 4 && 533.4 <= ts[0] <= 1244.6 && |Rc5Places(ts)| >= 4
    ensures Classify(ts) == Unknown <==>
              || |ts| < 4
              || (!NecOpening(ts) && !Rc6OpeningTimes(ts) && !(533.4 <= ts[0] <= 1244.6 && |Rc5Places(ts)| >= 4))
  {
    hide CountRc5;
    var k := if |ts| < 20 then |ts| else 20;
    CountIsPlaces(ts, k);
    assert Rc5Places(ts) == set i | 0 <= i < k && 533.4 <= ts[i] <= 1244.6;
  }

  function Exactly(segs: seq<Segment>): seq<real> {
    seq(|segs|, i requires 0 <= i < |segs| => segs[i].us as real)
  }

  // ---- captures only ever change their last segment -------------------------------------

  /** Recording more delays keeps every segment but the last. */
  lemma {:induction false} PrefixStays(t: Tape, ds: seq<Segment>)
    requires |t.segs| > 0
    ensures var s := RecordAll(t, ds).segs;
            |s| >= |t.segs| && s[..|t.segs| - 1] == t.segs[..|t.segs| - 1]
    decreases |ds|
  {
    hide Wrap32;
    if ds != [] {
      var t' := Record(t, ds[0]);
      assert t'.segs[..|t.segs| - 1] == t.segs[..|t.segs| - 1];
      PrefixStays(t', ds[1..]);
      var s := RecordAll(t, ds).segs;
      assert s[..|t'.segs| - 1][..|t.segs| - 1] == t'.segs[..|t'.segs| - 1][..|t.segs| - 1];
    }
  }

  /** A list of alternating levels is captured as it is, starting from either level. */
  lemma {:induction false} FourStepsApart(a: Segment, b: Segment, c: Segment, d: Segment)
    requires a.level != b.level && b.level != c.level && c.level != d.level
    ensures RecordAll(BLANK, [a, b, c, d]) == Tape([a, b, c, d], false)
  {
    hide Wrap32;
    var ds := [a, b, c, d];
    assert ds[1..] == [b, c, d] && ds[1..][1..] == [c, d] && ds[1..][1..][1..] == [d];
    var t1 := Record(BLANK, a);
    assert t1.segs == [a];
    var t2 := Record(t1, b);
    assert t2.segs == [a, b];
    var t3 := Record(t2, c);
    assert t3.segs == [a, b, c];
    assert Record(t3, d).segs == [a, b, c, d];
    assert RecordAll(t3, [d]) == Record(t3, d) by {
      assert [d][1..] == [];
    }
    assert RecordAll(t2, [c, d]) == RecordAll(t3, [d]) by {
      assert [c, d][1..] == [d];
    }
    assert RecordAll(t1, [b, c, d]) == RecordAll(t2, [c, d]) by {
      assert [b, c, d][1..] == [c, d];
    }
  }

  // ---- NEC and RC6: the leader decides --------------------------------------------------

  /** Every NEC code's capture is named NEC under any jitter of up to 40%. */
  lemma NecRecognised(code: nat, ts: seq<real>)
    requires Jittered(ts, RecordAll(BLANK, NecFrame(code)).segs)
    ensures Classify(ts) == NEC
  {
    hide RecordAll, NecFrame, CountRc5;
    NecCaptured(code);
    var segs := NecFrame(code);
    assert segs[0] == Segment(true, 9000) && segs[1] == Segment(false, 4500);
    assert InRange(ts[0], segs[0].us as real) && InRange(ts[1], segs[1].us as real);
  }

  /** Every RC6 word's capture is named RC6 under any jitter of up to 40%. */
  lemma Rc6Recognised(code: nat, ts: seq<real>)
    requires Jittered(ts, RecordAll(BLANK, Rc6Frame(code)).segs)
    ensures Classify(ts) == RC6
  {
    hide RecordAll, Rc6Bits, CountRc5;
    var opening := Rc6Leader() + Rc6Bit(true, 1);
    var four := [Segment(true, 2666), Segment(false, 889), Segment(true, 444), Segment(false, 444)];
    assert opening == four;
    FourStepsApart(four[0], four[1], four[2], four[3]);
    RecordAllConcat(BLANK, opening, Rc6Bits(code, 19));
    PrefixStays(Tape(four, false), Rc6Bits(code, 19));
    var segs := RecordAll(BLANK, Rc6Frame(code)).segs;
    assert segs[..3] == four[..3];
    assert segs[0] == four[..3][0] && segs[1] == four[..3][1];
    assert InRange(ts[0], segs[0].us as real) && InRange(ts[1], segs[1].us as real);
  }

  // ---- RC5: enough single-width pulses --------------------------------------------------

  /** Segments of one or two half-bits, the last of one. */
  ghost predicate Manchester(segs: seq<Segment>) {
    && |segs| > 0 && segs[|segs| - 1].us == 889
    && forall i :: 0 <= i < |segs| ==> segs[i].us == 889 || segs[i].us == 1778
  }

  /** How many of the first `k` segments are one half-bit wide. */
  ghost function Singles(segs: seq<Segment>, k: nat): (n: nat)
    requires k <= |segs|
    ensures n <= k
  {
    if k == 0 then 0 else Singles(segs, k - 1) + if segs[k - 1].us == 889 then 1 else 0
  }

  /** How often neighbouring bits among the `n` lowest differ. */
  ghost function Transitions(code: nat, n: nat): nat {
    if n <= 1 then 0 else Transitions(code, n - 1) + if Bit(code, n - 1) != Bit(code, n - 2) then 1 else 0
  }

  /** One more bit: its first half merges exactly when it differs from the bit before. */
  lemma Rc5BitRecorded(t: Tape, bit: bool)
    requires Manchester(t.segs) && |t.segs| + 2 <= MAX_SEGMENTS
    ensures var t' := RecordAll(t, Rc5Bit(bit));
            Manchester(t'.segs) && t'.segs[|t'.segs| - 1].level == bit &&
            |t'.segs| == |t.segs| + if t.segs[|t.segs| - 1].level == bit then 2 else 1
  {
    var n := |t.segs|;
    var pair := Rc5Bit(bit);
    assert pair[1..] == [pair[1]] && [pair[1]][1..] == [];
    var t1 := Record(t, pair[0]);
    var t2 := Record(t1, pair[1]);
    assert RecordAll(t1, [pair[1]]) == t2;
    if t.segs[n - 1].level == bit {
      assert t1.segs == t.segs + [pair[0]];
    } else {
      assert t1.segs == t.segs[..n - 1] + [Segment(!bit, 1778)];
    }
    assert t2.segs == t1.segs + [pair[1]];
  }

  /** A run of RC5 bits `n-1 .. 0` after a bit `prev`. */
  lemma {:induction false} Rc5BitsRecorded(t: Tape, code: nat, n: nat)
    requires Manchester(t.segs) && |t.segs| + 2 * n <= MAX_SEGMENTS
    requires t.segs[|t.segs| - 1].level == Bit(code, n)
    ensures var s := RecordAll(t, Rc5Bits(code, n)).segs;
            Manchester(s) && |s| + Transitions(code, n + 1) == |t.segs| + 2 * n
    decreases n
  {
    hide Bit;
    if n > 0 {
      var b := Bit(code, n - 1);
      var t' := RecordAll(t, Rc5Bit(b));
      Rc5BitRecorded(t, b);
      RecordAllConcat(t, Rc5Bit(b), Rc5Bits(code, n - 1));
      Rc5BitsRecorded(t', code, n - 1);
    }
  }

  /** The capture of an RC5 word with both start bits set: one- and two-half-bit segments, the first three
    * single, one segment fewer than half-bits for every transition. */
  lemma Rc5Captured(code: nat)
    requires Bit(code, 13) && Bit(code, 12)
    ensures var s := RecordAll(BLANK, Rc5Frame(code)).segs;
            && Manchester(s) && |s| == 28 - Transitions(code, 13) && TotalUs(s) == 24892
            && |s| >= 4 && s[0].us == s[1].us == s[2].us == 889
  {
    hide RecordAll, Runs, Bit, PopCount, NecFrame, Rc6Frame, TotalUs, Intended, Excess;
    var l, h := Segment(false, 889), Segment(true, 889);
    var starts := [l, h, l, h];
    assert Rc5Bits(code, 14) == starts + Rc5Bits(code, 12) by {
      assert Rc5Bits(code, 14) == Rc5Bit(true) + Rc5Bits(code, 13);
      assert Rc5Bits(code, 13) == Rc5Bit(true) + Rc5Bits(code, 12);
    }
    FourStepsApart(l, h, l, h);
    RecordAllConcat(BLANK, starts, Rc5Bits(code, 12));
    var t := Tape(starts, false);
    PrefixStays(t, Rc5Bits(code, 12));
    Rc5BitsRecorded(t, code, 12);
    var s := RecordAll(BLANK, Rc5Frame(code)).segs;
    assert s[..3] == starts[..3];
    assert s[0] == s[..3][0] && s[1] == s[..3][1] && s[2] == s[..3][2];
    FrameAirtime(code);
    Rc5HalvesAre(code, 14);
    TotalUsOfOne(l);
    FitsByRuns(BLANK, Rc5Frame(code));
    CaptureConservesTime(BLANK, Rc5Frame(code));
  }

  /** Time, counted in half-bits. */
  lemma {:induction false} SinglesAndDoubles(segs: seq<Segment>, k: nat)
    requires k <= |segs| && forall i :: 0 <= i < |segs| ==> segs[i].us == 889 || segs[i].us == 1778
    ensures TotalUs(segs[..k]) == 889 * (2 * k - Singles(segs, k))
    ensures |segs| - k >= Singles(segs, |segs|) - Singles(segs, k) >= 0
    decreases |segs| - k, k
  {
    if k > 0 {
      assert segs[..k] == segs[..k - 1] + [segs[k - 1]];
      SinglesTime(segs, k);
    } else {
      assert segs[..0] == [];
    }
    if k < |segs| {
      SinglesAndDoubles(segs, k + 1);
    }
  }

  lemma {:induction false} SinglesTime(segs: seq<Segment>, k: nat)
    requires k <= |segs| && forall i :: 0 <= i < |segs| ==> segs[i].us == 889 || segs[i].us == 1778
    ensures TotalUs(segs[..k]) == 889 * (2 * k - Singles(segs, k))
  {
    if k > 0 {
      SinglesTime(segs, k - 1);
      assert segs[..k] == segs[..k - 1] + [segs[k - 1]];
      TotalUsConcat(segs[..k - 1], [segs[k - 1]]);
      TotalUsOfOne(segs[k - 1]);
    } else {
      assert segs[..0] == [];
    }
  }

  /** Four single-width segments lie among the first twenty: the first three are single, the number of
    * single ones is even, and at most seven double ones can come early when there are more than twenty. */
  lemma EnoughSingles(segs: seq<Segment>)
    requires Manchester(segs) && TotalUs(segs) == 24892 && |segs| >= 4
    requires segs[0].us == segs[1].us == segs[2].us == 889
    ensures Singles(segs, |segs|) == 2 * |segs| - 28
    ensures Singles(segs, if |segs| < 20 then |segs| else 20) >= 4
    ensures |segs| > 20 ==> Singles(segs, 21) >= 13
  {
    hide TotalUs;
    var n := |segs|;
    assert segs[..n] == segs;
    SinglesAndDoubles(segs, n);
    SinglesAndDoubles(segs, 3);
    assert Singles(segs, 1) == 1 && Singles(segs, 2) == 2 && Singles(segs, 3) == 3;
    if n > 20 {
      SinglesAndDoubles(segs, 20);
      SinglesAndDoubles(segs, 21);
    }
  }

  /** Under jitter, each single-width segment still counts. */
  lemma {:induction false} SinglesAreCounted(ts: seq<real>, segs: seq<Segment>, k: nat)
    requires Jittered(ts, segs) && k <= |ts|
    ensures CountRc5(ts, k) >= Singles(segs, k)
  {
    if k > 0 {
      SinglesAreCounted(ts, segs, k - 1);
      assert InRange(ts[k - 1], segs[k - 1].us as real);
    }
  }

  /** Every RC5 word with both start bits set is named RC5 under any jitter of up to 40%. */
  lemma Rc5Recognised(code: nat, ts: seq<real>)
    requires Bit(code, 13) && Bit(code, 12)
    requires Jittered(ts, RecordAll(BLANK, Rc5Frame(code)).segs)
    ensures Classify(ts) == RC5
  {
    hide RecordAll, Rc5Frame, Bit, CountRc5, Singles, TotalUs, Transitions;
    var segs := RecordAll(BLANK, Rc5Frame(code)).segs;
    Rc5Captured(code);
    EnoughSingles(segs);
    SinglesAreCounted(ts, segs, if |segs| < 20 then |segs| else 20);
    assert InRange(ts[0], segs[0].us as real);
  }

  /** `ir_code_to_rc5` always sets both start bits, so every 32-bit code sent as RC5 is named RC5. */
  lemma EveryCodeRecognised(code: nat, ts: seq<real>)
    requires Jittered(ts, RecordAll(BLANK, Rc5Frame(CodeToRc5(code))).segs)
    ensures Classify(ts) == RC5
  {
    hide *;
    Rc5Layout(code, 13);
    Rc5Layout(code, 12);
    StartBits(code);
    Rc5Recognised(CodeToRc5(code), ts);
  }

  lemma StartBits(code: nat)
    ensures Rc5BitOf(code, 13) && Rc5BitOf(code, 12)
  {
  }

  // ---- without the leading space --------------------------------------------------------

  function AfterFirst(segs: seq<Segment>): seq<Segment> {
    if segs == [] then [] else segs[1..]
  }

  lemma {:induction false} ExactCount(segs: seq<Segment>, k: nat)
    requires k + 1 <= |segs| && Manchester(segs)
    ensures CountRc5(Exactly(segs[1..]), k) == Singles(segs, k + 1) - if segs[0].us == 889 then 1 else 0
  {
    if k > 0 {
      ExactCount(segs, k - 1);
      assert Exactly(segs[1..])[k - 1] == segs[k].us as real;
    }
  }

  /** Below bit `n - 1` every bit differs from its neighbour. */
  ghost predicate Alternating(code: nat, n: nat)
    requires n > 0
  {
    forall i: nat :: i < n ==> Bit(code, i) == (Bit(code, n - 1) == ((n - 1 - i) % 2 == 0))
  }

  lemma {:induction false} TransitionsBound(code: nat, n: nat)
    requires n > 0
    ensures Transitions(code, n) <= n - 1
    ensures Transitions(code, n) == n - 1 <==> Alternating(code, n)
  {
    hide Bit;
    if n > 1 {
      TransitionsBound(code, n - 1);
      if Alternating(code, n - 1) && Bit(code, n - 1) != Bit(code, n - 2) {
        assert Alternating(code, n);
      }
      if Alternating(code, n) {
        assert Bit(code, n - 2) == (Bit(code, n - 1) == false);
        assert Alternating(code, n - 1);
      }
    }
  }

  /** The four lowest bits by repeated halving. */
  lemma NibbleBits(w: nat, i: nat)
    requires i < 4
    ensures Bit(w, i) == ((if i == 0 then w else if i == 1 then w / 2 else if i == 2 then w / 2 / 2 else w / 2 / 2 / 2) % 2 == 1)
  {
    if i == 1 {
      assert Shr(w, 1) == w / 2;
    } else if i == 2 {
      assert Shr(w, 2) == Shr(w / 2, 1) == w / 2 / 2;
    } else if i == 3 {
      assert Shr(w, 3) == Shr(w / 2, 2) == Shr(w / 2 / 2, 1) == w / 2 / 2 / 2;
    }
  }

  lemma BitsOf3555(i: nat)
    requires i < 14
    ensures Bit(0x3555, i) == (i == 13 || i % 2 == 0)
  {
    hide Bit;
    if i < 4 {
      NibbleBits(0x3555, i);
    } else {
      assert Shr(0x3555, 4) == 0x355;
      BitOfShr(0x3555, 4, i - 4);
      BitsOf355(i - 4);
    }
  }

  lemma BitsOf355(i: nat)
    requires i < 10
    ensures Bit(0x355, i) == (i == 9 || i % 2 == 0)
  {
    hide Bit;
    if i < 4 {
      NibbleBits(0x355, i);
    } else {
      assert Shr(0x355, 4) == 0x35;
      BitOfShr(0x355, 4, i - 4);
      if i < 8 {
        NibbleBits(0x35, i - 4);
      } else {
        assert Shr(0x35, 4) == 3;
        BitOfShr(0x35, 4, i - 8);
        NibbleBits(3, i - 8);
      }
    }
  }

  lemma Only3555Alternates(code: nat)
    requires Bit(code, 13) && Bit(code, 12) && Shr(code, 14) == 0
    ensures Alternating(code, 13) <==> code == 0x3555
  {
    hide Bit, Shr;
    Fits3555();
    FitsMeansLow(code, 14);
    FitsMeansLow(0x3555, 14);
    forall i: nat | i < 14 ensures Bit(0x3555, i) == (i == 13 || i % 2 == 0) {
      BitsOf3555(i);
    }
    assert Alternating(0x3555, 13);
    if Alternating(code, 13) {
      forall i: nat ensures Bit(code, i) == Bit(0x3555, i) {
      }
      BitsDetermine(code, 0x3555);
    }
  }

  lemma Fits3555()
    ensures Shr(0x3555, 14) == 0
  {
    assert Shr(0x3555, 4) == 0x355;
    ShrShr(0x3555, 4, 10);
    assert Shr(0x355, 10) == 0;
  }

  /** Under jitter, the single-width segments behind the first still count. */
  lemma {:induction false} SinglesBehindFirst(ts: seq<real>, segs: seq<Segment>, k: nat)
    requires k + 1 <= |segs| && Manchester(segs) && segs[0].us == 889 && Jittered(ts, segs[1..])
    ensures CountRc5(ts, k) >= Singles(segs, k + 1) - 1
  {
    if k > 0 {
      SinglesBehindFirst(ts, segs, k - 1);
      assert InRange(ts[k - 1], segs[1..][k - 1].us as real);
    }
  }

  /** What a receiver records that cannot see the leading space: a capture that starts at the first mark. */
  ghost function FromFirstMark(code: nat): seq<Segment> {
    AfterFirst(RecordAll(BLANK, Rc5Frame(code)).segs)
  }

  lemma ExactlyIsJittered(segs: seq<Segment>)
    ensures Jittered(Exactly(segs), segs)
  {
  }

  /** With exact timings the capture from the first mark is named RC5 unless the word is 0x3555. */
  lemma ExactFromFirstMark(code: nat)
    requires Bit(code, 13) && Bit(code, 12) && Shr(code, 14) == 0
    ensures Classify(Exactly(FromFirstMark(code))) == RC5 <==> code != 0x3555
  {
    hide RecordAll, Rc5Frame, Bit, CountRc5, TotalUs, Transitions, Shr, Singles, Alternating;
    var segs := RecordAll(BLANK, Rc5Frame(code)).segs;
    Rc5Captured(code);
    EnoughSingles(segs);
    TransitionsBound(code, 13);
    Only3555Alternates(code);
    var ts := Exactly(AfterFirst(segs));
    assert ts[0] == segs[1].us as real;
    ExactCount(segs, if |ts| < 20 then |ts| else 20);
  }

  lemma JitteredFromFirstMark(code: nat, ts: seq<real>)
    requires Bit(code, 13) && Bit(code, 12) && Shr(code, 14) == 0 && code != 0x3555
    requires Jittered(ts, FromFirstMark(code))
    ensures Classify(ts) == RC5
  {
    hide RecordAll, Rc5Frame, Bit, CountRc5, TotalUs, Transitions, Shr, Singles, Alternating;
    var segs := RecordAll(BLANK, Rc5Frame(code)).segs;
    Rc5Captured(code);
    EnoughSingles(segs);
    TransitionsBound(code, 13);
    Only3555Alternates(code);
    assert InRange(ts[0], segs[1..][0].us as real);
    SinglesBehindFirst(ts, segs, if |ts| < 20 then |ts| else 20);
  }

  /** Without its leading space a word is named RC5 under every jitter of up to 40% if and only if it is not
    * 0x3555, which is not named even with exact timings. */
  lemma WithoutLeadingSpace(code: nat)
    requires Bit(code, 13) && Bit(code, 12) && Shr(code, 14) == 0
    ensures (forall ts :: Jittered(ts, FromFirstMark(code)) ==> Classify(ts) == RC5) <==> code != 0x3555
    ensures Classify(Exactly(FromFirstMark(code))) == RC5 <==> code != 0x3555
  {
    hide *;
    ExactFromFirstMark(code);
    ExactlyIsJittered(FromFirstMark(code));
    if code != 0x3555 {
      forall ts | Jittered(ts, FromFirstMark(code)) ensures Classify(ts) == RC5 {
        JitteredFromFirstMark(code, ts);
      }
    }
  }
}
