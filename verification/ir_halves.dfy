/** The quantiser that turns a capture back into half-bit levels. */
module IrHalves {
  import opened IrWave

  /** `to_halves`: the half-bit levels of a capture, or -1 when they do not fit in `max`. */
  method ToHalves(segs: seq<Segment>, t: nat, max: nat) returns (n: int, halves: seq<bool>)
    requires t > 0
    ensures n == if |Halves(segs, t)| <= max then |Halves(segs, t)| else -1
    ensures n >= 0 ==> halves == Halves(segs, t)
  {
    hide Repeat, Quot;
    halves := [];
    for i := 0 to |segs|
      invariant halves == Halves(segs[..i], t) && |halves| <= max
    {
      assert segs[..i + 1][..i] == segs[..i];
      HalvesGrow(segs, i + 1, t);
      var k := (segs[i].us + t / 2) / t;
      QuotIsDiv(segs[i].us + t / 2, t);
      var fits, more := Append(halves, segs[i].level, k, max);
      if !fits {
        return -1, halves;
      }
      halves := more;
    }
    assert segs[..|segs|] == segs;
    return |halves|, halves;
  }

  /** The inner loop of `to_halves`: one segment's half-bits, as long as they fit. */
  method Append(halves: seq<bool>, level: bool, count: nat, max: nat) returns (fits: bool, more: seq<bool>)
    requires |halves| <= max
    ensures fits == (|halves + Repeat(level, count)| <= max)
    ensures fits ==> more == halves + Repeat(level, count)
  {
    more := halves;
    var k := count;
    RepeatIs(level, count);
    while k > 0
      invariant 0 <= k <= count && |more| <= max
      invariant more == halves + Repeat(level, count - k)
    {
      RepeatIs(level, count - k);
      if |more| >= max {
        return false, more;
      }
      RepeatJoins(level, count - k, 1);
      assert Repeat(level, 1) == [level];
      ConcatAssoc(halves, Repeat(level, count - k), [level]);
      more := more + [level];
      k := k - 1;
    }
    return true, more;
  }

  lemma {:induction false} HalvesGrow(segs: seq<Segment>, i: nat, t: nat)
    requires t > 0 && i <= |segs|
    ensures |Halves(segs[..i], t)| <= |Halves(segs, t)|
    decreases |segs|
  {
    if i < |segs| {
      HalvesGrow(segs[..|segs| - 1], i, t);
      assert segs[..|segs| - 1][..i] == segs[..i];
    } else {
      assert segs[..i] == segs;
    }
  }

  /** Two delays that are whole numbers of half-bit widths. */
  lemma PairHalves(a: bool, x: nat, j: nat, b: bool, y: nat, k: nat, t: nat)
    requires t > 0
    requires Quot(x, t) == j && Rest(x, t) == 0 && Quot(y, t) == k && Rest(y, t) == 0
    ensures Intended([Segment(a, x), Segment(b, y)], t) == Repeat(a, j) + Repeat(b, k)
    ensures Excess([Segment(a, x), Segment(b, y)], t) == 0
  {
    hide Quot, Rest, Repeat;
    var ds := [Segment(a, x), Segment(b, y)];
    assert ds[1..] == [Segment(b, y)] && ds[1..][1..] == [];
    assert Intended(ds[1..], t) == Repeat(b, k);
    assert Excess(ds[1..], t) == 0;
  }

  lemma NoHalves(t: nat)
    requires t > 0
    ensures Intended([], t) == [] && Excess([], t) == 0 && Halves([], t) == [] && TotalUs([]) == 0
  {
  }
}
