/** The waveforms: what each protocol asks of the LED, and what the trace hook records of it. */
module IrWave {
  import opened Arithmetic
  import opened Bits

  const RC5_BIT_TIME: nat := 889
  const RC5_REPEAT_DELAY: nat := 114000
  const RC6_BIT_TIME: nat := 444
  const RC6_LEADER_PULSE: nat := 2666
  const RC6_LEADER_SPACE: nat := 889
  const RC6_REPEAT_DELAY: nat := 108000
  const MAX_SEGMENTS: nat := 512

  /** The LED held at a level for some microseconds: one delay, or one captured segment. */
  datatype Segment = Segment(level: bool, us: nat)

  // ---- frames -------------------------------------------------------------------------

  /** RC5: bit 1 is a space then a mark. */
  function Rc5Bit(bit: bool): seq<Segment> {
    [Segment(!bit, RC5_BIT_TIME), Segment(bit, RC5_BIT_TIME)]
  }

  /** RC6: bit 1 is a mark then a space, each half `width` bit times long. */
  function Rc6Bit(bit: bool, width: nat): seq<Segment> {
    [Segment(bit, width * RC6_BIT_TIME), Segment(!bit, width * RC6_BIT_TIME)]
  }

  function NecBit(bit: bool): seq<Segment> {
    [Segment(true, 560), Segment(false, if bit then 1690 else 560)]
  }

  /** The trailer (toggle) bit, position 15, is twice as wide. */
  function Rc6Width(position: nat): nat {
    if position == 15 then 2 else 1
  }

  /** Bits `n-1 .. 0` of an RC5 word. */
  function Rc5Bits(code: nat, n: nat): seq<Segment> {
    if n == 0 then [] else Rc5Bit(Bit(code, n - 1)) + Rc5Bits(code, n - 1)
  }

  /** Bits `n-1 .. 0` of an RC6 word. */
  function Rc6Bits(code: nat, n: nat): seq<Segment> {
    if n == 0 then []
    else Rc6Bit(Bit(code, n - 1), Rc6Width(n - 1)) + Rc6Bits(code, n - 1)
  }

  /** Bits `i .. n-1` of a NEC half-word, least significant first. */
  function NecBits(word: nat, i: nat, n: nat): seq<Segment>
    decreases n - i
  {
    if i >= n then [] else NecBit(Bit(word, i)) + NecBits(word, i + 1, n)
  }

  function Rc5Frame(code: nat): seq<Segment> {
    Rc5Bits(code, 14)
  }

  function Rc6Leader(): seq<Segment> {
    [Segment(true, RC6_LEADER_PULSE), Segment(false, RC6_LEADER_SPACE)]
  }

  function Rc6Frame(code: nat): seq<Segment> {
    Rc6Leader() + Rc6Bit(true, 1) + Rc6Bits(code, 19)
  }

  function NecFrame(code: nat): seq<Segment> {
    [Segment(true, 9000), Segment(false, 4500)]
    + NecBits(Low(Shr(code, 16), 16), 0, 16)
    + NecBits(Low(code, 16), 0, 16)
    + [Segment(true, 560)]
  }

  /** `ir_code_to_rc5`: start bits, toggle from bit 31, address from bits 15-11, command from bits 5-0. */
  function CodeToRc5(code: nat): nat {
    var starts := Or(Or(0, Shl(1, 13)), Shl(1, 12));
    var toggled := if Bit(code, 31) then Or(starts, Shl(1, 11)) else starts;
    Or(Or(toggled, Shl(Low(Shr(code, 11), 5), 6)), Low(code, 6))
  }

  /** `ir_code_to_rc6`: start bit, mode from bits 18-16, toggle from bit 31, address from bits 15-8,
    * command from bits 6-0. */
  function CodeToRc6(code: nat): nat {
    var mode := Or(Or(0, Shl(1, 19)), Shl(Low(Shr(code, 16), 3), 16));
    var toggled := if Bit(code, 31) then Or(mode, Shl(1, 15)) else mode;
    Or(Or(toggled, Shl(Low(Shr(code, 8), 8), 7)), Low(code, 7))
  }

  // ---- airtime ------------------------------------------------------------------------

  function TotalUs(ds: seq<Segment>): nat {
    if ds == [] then 0 else ds[0].us + TotalUs(ds[1..])
  }

  lemma {:induction false} TotalUsConcat(a: seq<Segment>, b: seq<Segment>)
    ensures TotalUs(a + b) == TotalUs(a) + TotalUs(b)
  {
    if a == [] {
      assert a + b == b;
    } else {
      TotalUsConcat(a[1..], b);
      assert (a + b)[1..] == a[1..] + b;
    }
  }

  lemma TotalUsOfOne(d: Segment)
    ensures TotalUs([d]) == d.us && TotalUs([]) == 0
  {
    assert [d][1..] == [];
  }

  lemma TotalUsPair(a: Segment, b: Segment)
    ensures TotalUs([a, b]) == a.us + b.us
  {
    assert [a, b][1..] == [b] && [b][1..] == [];
    assert TotalUs([b]) == b.us;
  }

  lemma {:induction false} Rc5Airtime(code: nat, n: nat)
    ensures TotalUs(Rc5Bits(code, n)) == n * 1778
  {
    if n > 0 {
      var b := Bit(code, n - 1);
      TotalUsPair(Rc5Bit(b)[0], Rc5Bit(b)[1]);
      TotalUsConcat(Rc5Bit(b), Rc5Bits(code, n - 1));
      Rc5Airtime(code, n - 1);
    }
  }

  lemma {:induction false} Rc6Airtime(code: nat, n: nat)
    ensures TotalUs(Rc6Bits(code, n)) == n * 888 + if n > 15 then 888 else 0
  {
    if n > 0 {
      var b := Rc6Bit(Bit(code, n - 1), Rc6Width(n - 1));
      TotalUsPair(b[0], b[1]);
      TotalUsConcat(b, Rc6Bits(code, n - 1));
      Rc6Airtime(code, n - 1);
    }
  }

  lemma {:induction false} NecAirtime(word: nat, i: nat, n: nat)
    requires i <= n
    ensures TotalUs(NecBits(word, i, n)) == (n - i) * 1120 + 1130 * (PopCount(word, n) - PopCount(word, i))
    decreases n - i
  {
    if i < n {
      var b := NecBit(Bit(word, i));
      TotalUsPair(b[0], b[1]);
      TotalUsConcat(b, NecBits(word, i + 1, n));
      NecAirtime(word, i + 1, n);
    }
  }

  lemma {:induction false} PopCountOfLow(w: nat, n: nat, k: nat)
    requires k <= n
    ensures PopCount(Low(w, n), k) == PopCount(w, k)
  {
    if k > 0 {
      PopCountOfLow(w, n, k - 1);
      BitOfLow(w, n, k - 1);
    }
  }

  lemma {:induction false} PopCountSplits(w: nat, n: nat, k: nat)
    ensures PopCount(w, n + k) == PopCount(w, n) + PopCount(Shr(w, n), k)
  {
    if k > 0 {
      PopCountSplits(w, n, k - 1);
      BitOfShr(w, n, k - 1);
    }
  }

  /** A frame's airtime never depends on the data for RC5 and RC6; a NEC frame pays for its set bits. */
  lemma FrameAirtime(code: nat)
    ensures TotalUs(Rc5Frame(code)) == 24892
    ensures TotalUs(Rc6Frame(code)) == 22203
    ensures TotalUs(NecFrame(code)) == 49900 + 1130 * PopCount(code, 32)
  {
    Rc5Airtime(code, 14);

    var start := Rc6Bit(true, 1);
    TotalUsPair(Rc6Leader()[0], Rc6Leader()[1]);
    TotalUsPair(start[0], start[1]);
    TotalUsConcat(Rc6Leader(), start);
    TotalUsConcat(Rc6Leader() + start, Rc6Bits(code, 19));
    Rc6Airtime(code, 19);

    var address, command := Low(Shr(code, 16), 16), Low(code, 16);
    var leader := [Segment(true, 9000), Segment(false, 4500)];
    TotalUsPair(leader[0], leader[1]);
    TotalUsConcat(leader, NecBits(address, 0, 16));
    TotalUsConcat(leader + NecBits(address, 0, 16), NecBits(command, 0, 16));
    TotalUsConcat(leader + NecBits(address, 0, 16) + NecBits(command, 0, 16), [Segment(true, 560)]);
    NecAirtime(address, 0, 16);
    NecAirtime(command, 0, 16);
    PopCountOfLow(Shr(code, 16), 16, 16);
    PopCountOfLow(code, 16, 16);
    PopCountSplits(code, 16, 16);
  }

  // ---- the trace hook -----------------------------------------------------------------

  /** What a capture holds: the merged segments, and whether one had to be dropped. */
  datatype Tape = Tape(segs: seq<Segment>, overflow: bool)

  const BLANK := Tape([], false)

  /** One call of the trace hook: extend the last segment when the level is unchanged (the sum is a
    * `uint32_t`), otherwise start a new one unless the buffer is full. */
  function Record(t: Tape, d: Segment): Tape {
    var n := |t.segs|;
    if n > 0 && t.segs[n - 1].level == d.level then
      t.(segs := t.segs[..n - 1] + [Segment(d.level, Wrap32(t.segs[n - 1].us + d.us))])
    else if n >= MAX_SEGMENTS then t.(overflow := true)
    else t.(segs := t.segs + [d])
  }

  function RecordAll(t: Tape, ds: seq<Segment>): Tape
    decreases |ds|
  {
    if ds == [] then t else RecordAll(Record(t, ds[0]), ds[1..])
  }

  lemma {:induction false} RecordAllConcat(t: Tape, a: seq<Segment>, b: seq<Segment>)
    ensures RecordAll(t, a + b) == RecordAll(RecordAll(t, a), b)
    decreases |a|
  {
    if a == [] {
      assert a + b == b;
    } else {
      RecordAllConcat(Record(t, a[0]), a[1..], b);
      assert (a + b)[1..] == a[1..] + b;
    }
  }

  lemma {:induction false} OverflowStays(t: Tape, ds: seq<Segment>)
    requires t.overflow
    ensures RecordAll(t, ds).overflow
    decreases |ds|
  {
    hide Wrap32;
    if ds != [] {
      OverflowStays(Record(t, ds[0]), ds[1..]);
    }
  }

  /** How many new segments the delays need after what is already captured: one for every change of level. */
  function Runs(segs: seq<Segment>, ds: seq<Segment>): nat
    decreases |ds|
  {
    if ds == [] then 0
    else (if segs != [] && segs[|segs| - 1].level == ds[0].level then 0 else 1) + Runs([ds[0]], ds[1..])
  }

  lemma RunsByLastLevel(a: seq<Segment>, b: seq<Segment>, ds: seq<Segment>)
    requires a != [] && b != [] && a[|a| - 1].level == b[|b| - 1].level
    ensures Runs(a, ds) == Runs(b, ds)
  {
  }

  /** A capture overflows exactly when the delays have more runs of equal level than the buffer has room for. */
  lemma {:induction false} FitsByRuns(t: Tape, ds: seq<Segment>)
    requires |t.segs| <= MAX_SEGMENTS && !t.overflow
    ensures RecordAll(t, ds).overflow <==> |t.segs| + Runs(t.segs, ds) > MAX_SEGMENTS
    ensures Runs(t.segs, ds) <= |ds|
    decreases |ds|
  {
    hide Wrap32;
    if ds != [] {
      var t' := Record(t, ds[0]);
      if t'.overflow {
        OverflowStays(t', ds[1..]);
        assert Runs(t.segs, ds) >= 1;
        RunsAreFew([ds[0]], ds[1..]);
      } else {
        RunsByLastLevel(t'.segs, [ds[0]], ds[1..]);
        FitsByRuns(t', ds[1..]);
      }
    }
  }

  lemma {:induction false} RunsAreFew(segs: seq<Segment>, ds: seq<Segment>)
    ensures Runs(segs, ds) <= |ds|
    decreases |ds|
  {
    if ds != [] {
      RunsAreFew([ds[0]], ds[1..]);
    }
  }

  /** Captured time is emitted time: nothing is lost in merging while the buffer and the counter suffice. */
  lemma {:induction false} CaptureConservesTime(t: Tape, ds: seq<Segment>)
    requires !RecordAll(t, ds).overflow
    requires TotalUs(t.segs) + TotalUs(ds) < UINT32_SPAN
    ensures TotalUs(RecordAll(t, ds).segs) == TotalUs(t.segs) + TotalUs(ds)
    decreases |ds|
  {
    if ds != [] {
      var n := |t.segs|;
      var t' := Record(t, ds[0]);
      if t'.overflow {
        OverflowStays(t', ds[1..]);
      }
      assert TotalUs(t'.segs) == TotalUs(t.segs) + ds[0].us by {
        if n > 0 && t.segs[n - 1].level == ds[0].level {
          assert t.segs == t.segs[..n - 1] + [t.segs[n - 1]];
          TotalUsConcat(t.segs[..n - 1], [t.segs[n - 1]]);
          TotalUsConcat(t.segs[..n - 1], [t'.segs[n - 1]]);
        } else {
          TotalUsConcat(t.segs, [ds[0]]);
        }
      }
      CaptureConservesTime(t', ds[1..]);
    }
  }

  // ---- requantising -------------------------------------------------------------------

  /** `us / t` by repeated subtraction, and what it leaves. */
  function Quot(us: nat, t: nat): nat
    requires t > 0
  {
    if us < t then 0 else 1 + Quot(us - t, t)
  }

  function Rest(us: nat, t: nat): nat
    requires t > 0
  {
    if us < t then us else Rest(us - t, t)
  }

  function Repeat(level: bool, k: nat): seq<bool> {
    if k == 0 then [] else [level] + Repeat(level, k - 1)
  }

  /** `to_halves`: each segment becomes its rounded number of half-bit widths. */
  function Halves(segs: seq<Segment>, t: nat): seq<bool>
    requires t > 0
  {
    if segs == [] then []
    else Halves(segs[..|segs| - 1], t) + Repeat(segs[|segs| - 1].level, Quot(segs[|segs| - 1].us + t / 2, t))
  }

  /** The half-bit levels the sender meant: each delay's whole number of half-bit widths. */
  function Intended(ds: seq<Segment>, t: nat): seq<bool>
    requires t > 0
  {
    if ds == [] then [] else Repeat(ds[0].level, Quot(ds[0].us, t)) + Intended(ds[1..], t)
  }

  /** The microseconds by which the delays exceed whole half-bit widths. */
  function Excess(ds: seq<Segment>, t: nat): nat
    requires t > 0
  {
    if ds == [] then 0 else Rest(ds[0].us, t) + Excess(ds[1..], t)
  }

  lemma {:induction false} QuotIsDiv(us: nat, t: nat)
    requires t > 0
    ensures Quot(us, t) == us / t && Rest(us, t) == us % t
    decreases us
  {
    if us >= t {
      QuotIsDiv(us - t, t);
      assert us == t * ((us - t) / t + 1) + (us - t) % t;
      QuotientIs(us, t, (us - t) / t + 1, (us - t) % t);
    } else {
      QuotientIs(us, t, 0, us);
    }
  }

  lemma ConcatAssoc<T>(a: seq<T>, b: seq<T>, c: seq<T>)
    ensures (a + b) + c == a + (b + c)
  {
  }

  lemma {:induction false} IntendedConcat(a: seq<Segment>, b: seq<Segment>, t: nat)
    requires t > 0
    ensures Intended(a + b, t) == Intended(a, t) + Intended(b, t)
  {
    if a == [] {
      assert a + b == b;
    } else {
      IntendedConcat(a[1..], b, t);
      assert (a + b)[1..] == a[1..] + b;
      ConcatAssoc(Repeat(a[0].level, Quot(a[0].us, t)), Intended(a[1..], t), Intended(b, t));
    }
  }

  lemma {:induction false} ExcessConcat(a: seq<Segment>, b: seq<Segment>, t: nat)
    requires t > 0
    ensures Excess(a + b, t) == Excess(a, t) + Excess(b, t)
  {
    if a == [] {
      assert a + b == b;
    } else {
      ExcessConcat(a[1..], b, t);
      assert (a + b)[1..] == a[1..] + b;
    }
  }

  lemma {:induction false} RepeatJoins(level: bool, j: nat, k: nat)
    ensures Repeat(level, j) + Repeat(level, k) == Repeat(level, j + k)
  {
    if j > 0 {
      RepeatJoins(level, j - 1, k);
    }
  }

  lemma {:induction false} RepeatIs(level: bool, k: nat)
    ensures |Repeat(level, k)| == k && forall i :: 0 <= i < k ==> Repeat(level, k)[i] == level
  {
    if k > 0 {
      RepeatIs(level, k - 1);
    }
  }

  lemma RestOfZero(t: nat)
    requires t > 0
    ensures Rest(0, t) == 0 && Quot(0, t) == 0
  {
  }

  /** Merging two delays whose remainders are small keeps the sum of their widths. */
  lemma {:induction false} WidthsAdd(a: nat, b: nat, t: nat)
    requires t > 0 && Rest(a, t) + Rest(b, t) + t / 2 < t
    ensures Rest(a + b, t) == Rest(a, t) + Rest(b, t)
    ensures Quot(a + t / 2, t) == Quot(a, t)
    ensures Quot(a + b + t / 2, t) == Quot(a, t) + Quot(b, t)
    decreases a + b
  {
    if a >= t {
      WidthsAdd(a - t, b, t);
    } else if b >= t {
      WidthsAdd(a, b - t, t);
    }
  }

  lemma HalvesSnoc(init: seq<Segment>, last: Segment, t: nat)
    requires t > 0
    ensures Halves(init + [last], t) == Halves(init, t) + Repeat(last.level, Quot(last.us + t / 2, t))
    ensures Excess(init + [last], t) == Excess(init, t) + Rest(last.us, t)
    ensures TotalUs(init + [last]) == TotalUs(init) + last.us
  {
    assert (init + [last])[..|init|] == init;
    ExcessConcat(init, [last], t);
    TotalUsConcat(init, [last]);
  }

  /** Lengthening the last segment by a delay of the same level. */
  lemma MergeAddsWidths(init: seq<Segment>, level: bool, a: nat, b: nat, t: nat)
    requires t > 0
    requires Excess(init + [Segment(level, a)], t) + Rest(b, t) + t / 2 < t
    ensures Halves(init + [Segment(level, a + b)], t) == Halves(init + [Segment(level, a)], t) + Repeat(level, Quot(b, t))
    ensures Excess(init + [Segment(level, a + b)], t) == Excess(init + [Segment(level, a)], t) + Rest(b, t)
    ensures TotalUs(init + [Segment(level, a + b)]) == TotalUs(init + [Segment(level, a)]) + b
  {
    hide *;
    HalvesSnoc(init, Segment(level, a), t);
    HalvesSnoc(init, Segment(level, a + b), t);
    WidthsAdd(a, b, t);
    RepeatJoins(level, Quot(a, t), Quot(b, t));
    ConcatAssoc(Halves(init, t), Repeat(level, Quot(a, t)), Repeat(level, Quot(b, t)));
  }

  /** One recorded delay adds exactly its own half-bit widths, whether it was merged or not. */
  lemma RecordAddsWidths(tape: Tape, d: Segment, t: nat)
    requires t > 0 && !Record(tape, d).overflow
    requires Excess(tape.segs, t) + Rest(d.us, t) + t / 2 < t
    requires TotalUs(tape.segs) + d.us < UINT32_SPAN
    ensures Halves(Record(tape, d).segs, t) == Halves(tape.segs, t) + Repeat(d.level, Quot(d.us, t))
    ensures Excess(Record(tape, d).segs, t) == Excess(tape.segs, t) + Rest(d.us, t)
    ensures TotalUs(Record(tape, d).segs) == TotalUs(tape.segs) + d.us
  {
    hide Halves, Excess, TotalUs, Repeat, Quot, Rest;
    var s, n := tape.segs, |tape.segs|;
    if n > 0 && s[n - 1].level == d.level {
      var init, us := s[..n - 1], s[n - 1].us;
      assert s == init + [Segment(d.level, us)];
      HalvesSnoc(init, Segment(d.level, us), t);
      assert Record(tape, d).segs == init + [Segment(d.level, us + d.us)];
      MergeAddsWidths(init, d.level, us, d.us, t);
    } else {
      HalvesSnoc(s, d, t);
      RestOfZero(t);
      WidthsAdd(d.us, 0, t);
      assert Record(tape, d).segs == s + [d];
    }
  }

  /** Capture then requantise gives back the intended half-bit levels, for every list of delays that fits the
    * buffer once merged and whose remainders together stay below the rounding threshold. */
  lemma {:induction false} RequantiseRecovers(tape: Tape, ds: seq<Segment>, t: nat)
    requires t > 0 && !RecordAll(tape, ds).overflow
    requires Excess(tape.segs, t) + Excess(ds, t) + t / 2 < t
    requires TotalUs(tape.segs) + TotalUs(ds) < UINT32_SPAN
    ensures Halves(RecordAll(tape, ds).segs, t) == Halves(tape.segs, t) + Intended(ds, t)
    decreases |ds|
  {
    hide Halves, Repeat, Quot, Rest, Record;
    if ds != [] {
      if Record(tape, ds[0]).overflow {
        OverflowStays(Record(tape, ds[0]), ds[1..]);
      }
      RecordAddsWidths(tape, ds[0], t);
      RequantiseRecovers(Record(tape, ds[0]), ds[1..], t);
      ConcatAssoc(Halves(tape.segs, t), Repeat(ds[0].level, Quot(ds[0].us, t)), Intended(ds[1..], t));
    } else {
      assert Halves(tape.segs, t) + Intended(ds, t) == Halves(tape.segs, t);
    }
  }
}
