/** Reading a NEC capture back. */
module IrNec {
  import opened Bits
  import opened IrWave

  /** A list of delays that starts with a mark and switches level every time. */
  predicate Alternates(ds: seq<Segment>) {
    forall i :: 0 <= i < |ds| ==> ds[i].level == (i % 2 == 0)
  }

  /** The `i`-th mark and space after the leader are a NEC bit. */
  predicate NecShows(segs: seq<Segment>, i: nat, bit: bool) {
    2 * i + 3 < |segs| && segs[2 * i + 2] == NecBit(bit)[0] && segs[2 * i + 3] == NecBit(bit)[1]
  }

  /** The word assembled from `k` spaces starting at bit `base`, least significant first. */
  function NecWord(segs: seq<Segment>, base: nat, k: nat): nat
    requires 2 * (base + k) + 2 <= |segs|
  {
    if k == 0 then 0
    else Or(NecWord(segs, base, k - 1), Shl(BitValue(segs[2 * (base + k - 1) + 3].us == 1690), k - 1))
  }

  /** The leader, all 32 bits and the stop mark have the lengths the test checks for. */
  predicate NecSound(segs: seq<Segment>)
    requires |segs| == 67
  {
    && segs[0] == Segment(true, 9000) && segs[1] == Segment(false, 4500) && segs[66] == Segment(true, 560)
    && forall i :: 0 <= i < 32 ==> NecShows(segs, i, true) || NecShows(segs, i, false)
  }

  /** The decoding loop of the NEC test: `ok` collects its checks. */
  method DecodeNec(segs: seq<Segment>) returns (ok: bool, address: nat, command: nat)
    requires |segs| == 67
    ensures ok <==> NecSound(segs)
    ensures address == NecWord(segs, 0, 16) && command == NecWord(segs, 16, 16)
  {
    ok := segs[0] == Segment(true, 9000) && segs[1] == Segment(false, 4500);
    address, command := 0, 0;
    for i := 0 to 32
      invariant ok <==> segs[0] == Segment(true, 9000) && segs[1] == Segment(false, 4500) &&
                        forall j :: 0 <= j < i ==> NecShows(segs, j, true) || NecShows(segs, j, false)
      invariant address == NecWord(segs, 0, if i < 16 then i else 16)
      invariant command == NecWord(segs, 16, if i < 16 then 0 else i - 16)
    {
      var mark, space := segs[2 + 2 * i], segs[3 + 2 * i];
      var good := mark.level && mark.us == 560 && !space.level && (space.us == 560 || space.us == 1690);
      assert good <==> NecShows(segs, i, true) || NecShows(segs, i, false);
      ok := ok && good;
      var bit := space.us == 1690;
      if i < 16 {
        address := Or(address, Shl(BitValue(bit), i));
      } else {
        command := Or(command, Shl(BitValue(bit), i - 16));
      }
    }
    ok := ok && segs[66] == Segment(true, 560);
  }

  /** Delays that alternate are captured unmerged. */
  lemma {:induction false} AlternatingIsUnmerged(ds: seq<Segment>, k: nat)
    requires Alternates(ds) && |ds| <= MAX_SEGMENTS && k <= |ds|
    ensures RecordAll(Tape(ds[..k], false), ds[k..]) == Tape(ds, false)
    decreases |ds| - k
  {
    if k < |ds| {
      assert Record(Tape(ds[..k], false), ds[k]) == Tape(ds[..k + 1], false);
      assert ds[k..][1..] == ds[k + 1..];
      AlternatingIsUnmerged(ds, k + 1);
    } else {
      assert ds[..k] == ds;
    }
  }

  /** Position `j` of the delays of bits `i .. n-1`. */
  lemma {:induction false} NecBitsAre(word: nat, i: nat, n: nat)
    requires i <= n
    ensures |NecBits(word, i, n)| == 2 * (n - i) && Alternates(NecBits(word, i, n))
    ensures forall j :: i <= j < n ==>
              NecBits(word, i, n)[2 * (j - i)..2 * (j - i) + 2] == NecBit(Bit(word, j))
    decreases n - i
  {
    hide Bit;
    if i < n {
      NecBitsAre(word, i + 1, n);
      var ds, rest := NecBits(word, i, n), NecBits(word, i + 1, n);
      forall j | i <= j < n ensures ds[2 * (j - i)..2 * (j - i) + 2] == NecBit(Bit(word, j)) {
        if j > i {
          assert ds[2 * (j - i)..2 * (j - i) + 2] == rest[2 * (j - i - 1)..2 * (j - i - 1) + 2];
        }
      }
    }
  }

  lemma AlternatesConcat(a: seq<Segment>, b: seq<Segment>)
    requires Alternates(a) && Alternates(b) && |a| % 2 == 0
    ensures Alternates(a + b)
  {
  }

  lemma AlternatesAtEnds()
    ensures Alternates([Segment(true, 9000), Segment(false, 4500)]) && Alternates([Segment(true, 560)])
  {
  }

  /** The captured NEC frame is the frame itself, and bit `i` of each half sits where the decoder looks. */
  lemma NecCaptured(code: nat)
    ensures RecordAll(BLANK, NecFrame(code)) == Tape(NecFrame(code), false)
    ensures |NecFrame(code)| == 67 && NecSound(NecFrame(code))
    ensures forall i :: 0 <= i < 16 ==> NecShows(NecFrame(code), i, Bit(Low(Shr(code, 16), 16), i))
    ensures forall i :: 0 <= i < 16 ==> NecShows(NecFrame(code), 16 + i, Bit(Low(code, 16), i))
  {
    hide NecBits, Bit, Low, Shr, RecordAll, Alternates;
    var address, command := Low(Shr(code, 16), 16), Low(code, 16);
    var high, low := NecBits(address, 0, 16), NecBits(command, 0, 16);
    var ds := NecFrame(code);
    NecBitsAre(address, 0, 16);
    NecBitsAre(command, 0, 16);
    var opening := [Segment(true, 9000), Segment(false, 4500)];
    assert ds == opening + high + low + [Segment(true, 560)];
    AlternatesAtEnds();
    AlternatesConcat(opening, high);
    AlternatesConcat(opening + high, low);
    AlternatesConcat(opening + high + low, [Segment(true, 560)]);
    forall i | 0 <= i < 16
      ensures NecShows(ds, i, Bit(address, i)) && NecShows(ds, 16 + i, Bit(command, i))
    {
      assert ds[2 * i + 2..2 * i + 4] == high[2 * (i - 0)..2 * (i - 0) + 2];
      assert ds[2 * i + 34..2 * i + 36] == low[2 * (i - 0)..2 * (i - 0) + 2];
      SliceOfTwo(ds, 2 * i + 2, NecBit(Bit(address, i)));
      SliceOfTwo(ds, 2 * i + 34, NecBit(Bit(command, i)));
    }
    forall i | 0 <= i < 32 ensures NecShows(ds, i, true) || NecShows(ds, i, false) {
      if i < 16 {
        assert NecShows(ds, i, Bit(address, i));
      } else {
        assert NecShows(ds, 16 + (i - 16), Bit(command, i - 16));
      }
    }
    AlternatingIsUnmerged(ds, 0);
    assert ds[0..] == ds && ds[..0] == [];
  }

  lemma SliceOfTwo(ds: seq<Segment>, i: nat, pair: seq<Segment>)
    requires i + 2 <= |ds| && ds[i..i + 2] == pair
    ensures ds[i] == pair[0] && ds[i + 1] == pair[1]
  {
    assert ds[i..i + 2][0] == ds[i] && ds[i..i + 2][1] == ds[i + 1];
  }

  lemma {:induction false} NecReadsBits(segs: seq<Segment>, base: nat, word: nat, k: nat)
    requires 2 * (base + k) + 2 <= |segs|
    requires forall i :: 0 <= i < k ==> NecShows(segs, base + i, Bit(word, i))
    ensures NecWord(segs, base, k) == Low(word, k)
  {
    hide Bit, Or, Shl;
    if k > 0 {
      NecReadsBits(segs, base, word, k - 1);
      LowGrows(word, k - 1);
      assert NecShows(segs, base + (k - 1), Bit(word, k - 1));
    } else {
      LowOfNothing(word);
    }
  }

  lemma LowOfNothing(w: nat)
    ensures Low(w, 0) == 0
  {
  }

  lemma LowOfLow(w: nat, n: nat)
    ensures Low(Low(w, n), n) == Low(w, n)
  {
    LowFits(w, n);
    FitsMeansLow(Low(w, n), n);
  }

  /** Emit, merge, decode: the captured NEC frame passes every check and yields the code's two halves. */
  lemma NecRoundTrip(code: nat)
    ensures var segs := RecordAll(BLANK, NecFrame(code)).segs;
            |segs| == 67 && NecSound(segs) &&
            NecWord(segs, 0, 16) == Low(Shr(code, 16), 16) && NecWord(segs, 16, 16) == Low(code, 16)
    ensures Or(Shl(Low(Shr(code, 16), 16), 16), Low(code, 16)) == code <==> Shr(code, 32) == 0
  {
    hide Bit, Low, Shr, Shl, Or, NecWord, NecBits, RecordAll;
    NecCaptured(code);
    NecReadsBits(NecFrame(code), 0, Low(Shr(code, 16), 16), 16);
    NecReadsBits(NecFrame(code), 16, Low(code, 16), 16);
    LowOfLow(Shr(code, 16), 16);
    LowOfLow(code, 16);
    HalvesRejoin(code);
  }

  lemma HalvesRejoin(code: nat)
    ensures Or(Shl(Low(Shr(code, 16), 16), 16), Low(code, 16)) == code <==> Shr(code, 32) == 0
  {
    hide *;
    var high, low := Low(Shr(code, 16), 16), Low(code, 16);
    var r := Or(Shl(high, 16), low);
    forall i: nat ensures Bit(r, i) == (i < 32 && Bit(code, i)) {
      BitOfOr(Shl(high, 16), low, i);
      BitOfLow(code, 16, i);
      BitOfShl(high, 16, i);
      if i >= 16 {
        BitOfLow(Shr(code, 16), 16, i - 16);
        BitOfShr(code, 16, i - 16);
      }
    }
    if Shr(code, 32) == 0 {
      FitsMeansLow(code, 32);
      BitsDetermine(r, code);
    } else if r == code {
      forall i: nat ensures !Bit(Shr(code, 32), i) {
        BitOfShr(code, 32, i);
      }
      ZeroFromBits(Shr(code, 32));
    }
  }

  lemma ZeroFromBits(w: nat)
    requires forall i: nat :: !Bit(w, i)
    ensures w == 0
  {
    forall i: nat ensures Bit(w, i) == Bit(0, i) {
      BitOfZero(i);
    }
    BitsDetermine(w, 0);
  }

  /** Bit `i` of the word assembled is whether the space of that bit was long. */
  lemma {:induction false} NecWordBits(segs: seq<Segment>, base: nat, k: nat, i: nat)
    requires 2 * (base + k) + 2 <= |segs|
    ensures Bit(NecWord(segs, base, k), i) == (i < k && segs[2 * (base + i) + 3].us == 1690)
  {
    hide Bit, Or, Shl;
    if k == 0 {
      BitOfZero(i);
    } else {
      NecWordBits(segs, base, k - 1, i);
      var v := BitValue(segs[2 * (base + k - 1) + 3].us == 1690);
      BitOfOr(NecWord(segs, base, k - 1), Shl(v, k - 1), i);
      BitOfShl(v, k - 1, i);
      if i >= k - 1 {
        BitOfBit(v == 1, i - (k - 1));
      }
    }
  }

  lemma BitOfBit(b: bool, i: nat)
    ensures Bit(BitValue(b), i) == (b && i == 0)
  {
    if i > 0 {
      BitOfZero(i - 1);
    }
  }

  /** The decoder accepts nothing but what the encoder emits: segments that pass all its checks are the captured frame of
    * the code made of the two halves it reads. */
  lemma NecAcceptsOnlyFrames(segs: seq<Segment>)
    requires |segs| == 67 && NecSound(segs)
    ensures segs == RecordAll(BLANK, NecFrame(Or(Shl(NecWord(segs, 0, 16), 16), NecWord(segs, 16, 16)))).segs
  {
    hide Bit, Low, Shr, Shl, Or, NecWord, NecFrame, RecordAll;
    var code := Or(Shl(NecWord(segs, 0, 16), 16), NecWord(segs, 16, 16));
    var frame := NecFrame(code);
    NecCaptured(code);
    forall i | 0 <= i < 32 ensures segs[2 * i + 2] == frame[2 * i + 2] && segs[2 * i + 3] == frame[2 * i + 3] {
      var long := segs[2 * i + 3].us == 1690;
      assert NecShows(segs, i, long);
      NecCodeBits(segs, i);
      if i < 16 {
        assert NecShows(frame, i, Bit(Low(Shr(code, 16), 16), i));
      } else {
        assert NecShows(frame, 16 + (i - 16), Bit(Low(code, 16), i - 16));
      }
    }
    forall j | 0 <= j < 67 ensures segs[j] == frame[j] {
      if 2 <= j < 66 {
        var i := (j - 2) / 2;
        assert j == 2 * i + 2 || j == 2 * i + 3;
      }
    }
  }

  /** The bit of the code that the encoder sends in this place. */
  lemma NecCodeBits(segs: seq<Segment>, i: nat)
    requires |segs| == 67 && i < 32
    ensures var code := Or(Shl(NecWord(segs, 0, 16), 16), NecWord(segs, 16, 16));
            (segs[2 * i + 3].us == 1690) == if i < 16 then Bit(Low(Shr(code, 16), 16), i) else Bit(Low(code, 16), i - 16)
  {
    hide Bit, Low, Shr, Shl, Or, NecWord;
    var high, low := NecWord(segs, 0, 16), NecWord(segs, 16, 16);
    var code := Or(Shl(high, 16), low);
    if i < 16 {
      BitOfLow(Shr(code, 16), 16, i);
      BitOfShr(code, 16, i);
      BitOfOr(Shl(high, 16), low, 16 + i);
      BitOfShl(high, 16, 16 + i);
      NecWordBits(segs, 0, 16, i);
      NecWordBits(segs, 16, 16, 16 + i);
    } else {
      BitOfLow(code, 16, i - 16);
      BitOfOr(Shl(high, 16), low, i - 16);
      BitOfShl(high, 16, i - 16);
      NecWordBits(segs, 16, 16, i - 16);
    }
  }
}
