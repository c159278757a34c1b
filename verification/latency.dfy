/** Latency statistics: running aggregates beside a bounded sample buffer that readers sort in place. */
module Latency {
  import opened Arithmetic
  import opened Options

  const UINT32_MAX: nat := 0xFFFF_FFFF

  datatype Sample = Sample(timestampUs: nat, latencyUs: nat, operation: Option<string>, code: nat)

  // ---- order-free summaries -------------------------------------------------------------

  datatype Summary = Summary(count: nat, sum: nat, min: nat, max: nat)

  const NOTHING := Summary(0, 0, 0xFFFF_FFFF, 0)

  /** One more sample; with an operation given, only its samples count. */
  function Include(a: Summary, s: Sample, only: Option<string>): Summary {
    if only.Some? && s.operation != only then a
    else Summary(a.count + 1, a.sum + s.latencyUs,
                 if s.latencyUs < a.min then s.latencyUs else a.min,
                 if s.latencyUs > a.max then s.latencyUs else a.max)
  }

  function Summarise(ss: seq<Sample>, only: Option<string>): Summary {
    if ss == [] then NOTHING else Include(Summarise(ss[..|ss| - 1], only), ss[|ss| - 1], only)
  }

  function Average(a: Summary): nat {
    if a.count == 0 then 0 else a.sum / a.count
  }

  predicate Fits(ss: seq<Sample>) {
    forall i :: 0 <= i < |ss| ==> ss[i].latencyUs <= 0xFFFF_FFFF
  }

  lemma SummariseSnoc(ss: seq<Sample>, x: Sample, only: Option<string>)
    ensures Summarise(ss + [x], only) == Include(Summarise(ss, only), x, only)
    ensures Summarise([], only) == NOTHING
  {
    assert (ss + [x])[..|ss|] == ss;
  }

  lemma IncludeCommutes(a: Summary, x: Sample, y: Sample, only: Option<string>)
    ensures Include(Include(a, x, only), y, only) == Include(Include(a, y, only), x, only)
  {
  }

  lemma {:induction false} SummaryMoves(a: seq<Sample>, x: Sample, b: seq<Sample>, only: Option<string>)
    ensures Summarise(a + [x] + b, only) == Include(Summarise(a + b, only), x, only)
    decreases |b|
  {
    hide Summarise, Include;
    if b == [] {
      assert a + [x] + b == a + [x] && a + b == a;
      SummariseSnoc(a, x, only);
    } else {
      var init, last := b[..|b| - 1], b[|b| - 1];
      SummaryMoves(a, x, init, only);
      assert a + [x] + b == (a + [x] + init) + [last] && a + b == (a + init) + [last];
      SummariseSnoc(a + [x] + init, last, only);
      SummariseSnoc(a + init, last, only);
      IncludeCommutes(Summarise(a + init, only), x, last, only);
    }
  }

  /** Two lists with the same samples, in any order, summarise alike. */
  lemma {:induction false} SummaryIgnoresOrder(s: seq<Sample>, t: seq<Sample>, only: Option<string>)
    requires multiset(s) == multiset(t)
    ensures Summarise(s, only) == Summarise(t, only)
    decreases |s|
  {
    hide Summarise;
    if s == [] {
      SameSize(s, t);
    } else {
      var init, x := s[..|s| - 1], s[|s| - 1];
      assert s == init + [x];
      var i := Occurs(x, s, t);
      RemoveOne(init, x, t, i);
      SummaryIgnoresOrder(init, t[..i] + t[i + 1..], only);
      SummaryMoves(init, x, [], only);
      assert init + [x] + [] == s && init + [] == init;
      SummaryMoves(t[..i], x, t[i + 1..], only);
      assert t[..i] + [x] + t[i + 1..] == t;
    }
  }

  lemma SameSize<T>(s: seq<T>, t: seq<T>)
    requires multiset(s) == multiset(t)
    ensures |s| == |t|
  {
    assert |multiset(s)| == |s| && |multiset(t)| == |t|;
  }

  lemma Occurs<T>(x: T, s: seq<T>, t: seq<T>) returns (i: nat)
    requires multiset(s) == multiset(t) && x in s
    ensures i < |t| && t[i] == x
  {
    assert x in multiset(t);
    i :| 0 <= i < |t| && t[i] == x;
  }

  lemma RemoveOne<T>(init: seq<T>, x: T, t: seq<T>, i: nat)
    requires i < |t| && t[i] == x && multiset(init + [x]) == multiset(t)
    ensures multiset(init) == multiset(t[..i] + t[i + 1..])
  {
    assert t == t[..i] + [x] + t[i + 1..];
    assert multiset(t) == multiset(t[..i]) + multiset{x} + multiset(t[i + 1..]);
    assert multiset(init + [x]) == multiset(init) + multiset{x};
    assert multiset(t[..i] + t[i + 1..]) == multiset(t[..i]) + multiset(t[i + 1..]);
    assert multiset(init) == multiset(t) - multiset{x};
  }

  /** The sum stays below 2^64 as long as the count stays below 2^32, and the average lies between the extremes. */
  lemma {:induction false} SummaryBounds(ss: seq<Sample>, only: Option<string>)
    requires Fits(ss)
    ensures var a := Summarise(ss, only);
            && a.count <= |ss| && a.sum <= a.count * 0xFFFF_FFFF
            && a.min <= 0xFFFF_FFFF && a.max <= 0xFFFF_FFFF
            && a.min * a.count <= a.sum <= a.max * a.count
            && (only.None? ==> a.count == |ss|)
  {
    if ss != [] {
      var init, last := ss[..|ss| - 1], ss[|ss| - 1];
      SummaryBounds(init, only);
      var a, b := Summarise(init, only), Summarise(ss, only);
      if b != a {
        SumStep(a.min, b.min, a.max, b.max, a.count, a.sum, last.latencyUs);
      }
    }
  }

  /** Neither the 32-bit count nor the 64-bit sum wraps. */
  lemma NoWrap(ss: seq<Sample>, only: Option<string>)
    requires Fits(ss) && |ss| <= UINT32_MAX
    ensures var a := Summarise(ss, only); a.count < 0x1_0000_0000 && a.sum < 0x1_0000_0000_0000_0000
  {
    hide Summarise;
    SummaryBounds(ss, only);
  }

  lemma SumStep(lo: nat, lo': nat, hi: nat, hi': nat, n: nat, sum: nat, x: nat)
    requires lo' <= lo && lo' <= x && hi <= hi' && x <= hi'
    requires lo * n <= sum <= hi * n
    ensures lo' * (n + 1) <= sum + x <= hi' * (n + 1)
  {
    assert lo' * n <= lo * n && hi * n <= hi' * n;
  }

  lemma AverageIsBetween(ss: seq<Sample>, only: Option<string>)
    requires Fits(ss) && Summarise(ss, only).count > 0
    ensures var a := Summarise(ss, only); a.min <= Average(a) <= a.max && Average(a) <= 0xFFFF_FFFF
  {
    hide Summarise;
    SummaryBounds(ss, only);
    var a := Summarise(ss, only);
    QuotientBetween(a.min, a.max, a.count, a.sum);
  }

  lemma AverageOfAll(ss: seq<Sample>)
    requires Fits(ss) && ss != []
    ensures var a := Summarise(ss, None); a.min <= Average(a) <= a.max
  {
    hide Summarise, Average;
    SummaryBounds(ss, None);
    AverageIsBetween(ss, None);
  }

  lemma DescribesAll(ss: seq<Sample>)
    requires Fits(ss)
    ensures Describes(Summarise(ss, None), Chosen(ss, None)) && Summarise(ss, None).count == |ss|
  {
    SummaryDescribes(ss, None);
    SummaryBounds(ss, None);
  }

  lemma QuotientBetween(lo: nat, hi: nat, n: nat, sum: nat)
    requires n > 0 && lo * n <= sum <= hi * n
    ensures lo <= sum / n <= hi
  {
    var q := sum / n;
    assert sum == q * n + sum % n;
    Below(lo, q, n, sum);
    Below'(q, hi, n, sum);
  }

  lemma Below(lo: nat, q: nat, n: nat, sum: nat)
    requires n > 0 && lo * n <= sum < q * n + n
    ensures lo <= q
  {
    if lo > q {
      Multiples(q + 1, lo, n);
    }
  }

  lemma Below'(q: nat, hi: nat, n: nat, sum: nat)
    requires n > 0 && q * n <= sum <= hi * n
    ensures q <= hi
  {
    Below(q, hi, n, hi * n);
  }

  lemma Multiples(a: nat, b: nat, n: nat)
    requires a <= b
    ensures a * n <= b * n
  {
  }

  // ---- what a summary says --------------------------------------------------------------

  /** The places of the samples of an operation, in order; with none given, of all samples. */
  ghost function Places(ss: seq<Sample>, only: Option<string>): (at: seq<nat>)
    ensures forall k :: 0 <= k < |at| ==> at[k] < |ss| && (only.None? || ss[at[k]].operation == only)
    ensures forall j, k :: 0 <= j < k < |at| ==> at[j] < at[k]
    ensures forall i :: 0 <= i < |ss| && (only.None? || ss[i].operation == only) ==> i in at
  {
    if ss == [] then []
    else
      var n := |ss| - 1;
      var before := Places(ss[..n], only);
      assert forall i :: 0 <= i < n && (only.None? || ss[i].operation == only) ==> ss[..n][i] == ss[i] && i in before;
      if only.None? || ss[n].operation == only then before + [n] else before
  }

  ghost function Total(xs: seq<nat>): nat {
    if xs == [] then 0 else Total(xs[..|xs| - 1]) + xs[|xs| - 1]
  }

  ghost function LatenciesAt(ss: seq<Sample>, at: seq<nat>): (xs: seq<nat>)
    requires forall k :: 0 <= k < |at| ==> at[k] < |ss|
    ensures |xs| == |at| && forall k :: 0 <= k < |at| ==> xs[k] == ss[at[k]].latencyUs
  {
    seq(|at|, k requires 0 <= k < |at| => ss[at[k]].latencyUs)
  }

  /** The latencies a summary is of. */
  ghost function Chosen(ss: seq<Sample>, only: Option<string>): seq<nat> {
    LatenciesAt(ss, Places(ss, only))
  }

  lemma ChosenSnoc(ss: seq<Sample>, x: Sample, only: Option<string>)
    ensures Chosen([], only) == []
    ensures Chosen(ss + [x], only) ==
      if only.None? || x.operation == only then Chosen(ss, only) + [x.latencyUs] else Chosen(ss, only)
  {
    assert (ss + [x])[..|ss|] == ss;
  }

  lemma TotalSnoc(xs: seq<nat>, x: nat)
    ensures Total([]) == 0 && Total(xs + [x]) == Total(xs) + x
  {
    assert (xs + [x])[..|xs|] == xs;
  }

  /** These are the number, the sum, the least and the greatest of the latencies. */
  ghost predicate Describes(a: Summary, xs: seq<nat>) {
    && a.count == |xs| && a.sum == Total(xs)
    && (forall k :: 0 <= k < |xs| ==> a.min <= xs[k] <= a.max)
    && (xs == [] ==> a.min == 0xFFFF_FFFF && a.max == 0)
    && (xs != [] ==> (exists k :: 0 <= k < |xs| && xs[k] == a.min) && (exists k :: 0 <= k < |xs| && xs[k] == a.max))
  }

  lemma DescribesSnoc(a: Summary, xs: seq<nat>, x: nat)
    requires Describes(a, xs) && x <= 0xFFFF_FFFF
    ensures Describes(Summary(a.count + 1, a.sum + x, if x < a.min then x else a.min, if x > a.max then x else a.max), xs + [x])
  {
    TotalSnoc(xs, x);
    var all, n := xs + [x], |xs|;
    assert all[n] == x && forall k :: 0 <= k < n ==> all[k] == xs[k];
    if xs != [] {
      var i :| 0 <= i < |xs| && xs[i] == a.min;
      var j :| 0 <= j < |xs| && xs[j] == a.max;
      assert all[i] == a.min && all[j] == a.max;
    }
  }

  lemma DescribesNothing()
    ensures Describes(NOTHING, [])
  {
    TotalSnoc([], 0);
  }

  lemma DescribesIncluded(a: Summary, xs: seq<nat>, x: Sample, only: Option<string>)
    requires Describes(a, xs) && x.latencyUs <= 0xFFFF_FFFF
    ensures Describes(Include(a, x, only), if only.None? || x.operation == only then xs + [x.latencyUs] else xs)
  {
    hide Describes;
    DescribesSnoc(a, xs, x.latencyUs);
  }

  lemma DescribesOneMore(ss: seq<Sample>, x: Sample, only: Option<string>)
    requires Describes(Summarise(ss, only), Chosen(ss, only)) && x.latencyUs <= 0xFFFF_FFFF
    ensures Describes(Summarise(ss + [x], only), Chosen(ss + [x], only))
  {
    hide Describes, Chosen, Summarise, Include;
    DescribesIncluded(Summarise(ss, only), Chosen(ss, only), x, only);
    ChosenSnoc(ss, x, only);
    SummariseSnoc(ss, x, only);
  }

  /** A summary is what its name says of the chosen latencies: all of them, or those whose operation was asked for. */
  lemma {:induction false} SummaryDescribes(ss: seq<Sample>, only: Option<string>)
    requires Fits(ss)
    ensures Describes(Summarise(ss, only), Chosen(ss, only))
    decreases |ss|
  {
    hide Describes, Chosen, Summarise;
    if ss == [] {
      DescribesNothing();
      ChosenSnoc([], Sample(0, 0, None, 0), only);
      SummariseSnoc([], Sample(0, 0, None, 0), only);
    } else {
      var init, last := ss[..|ss| - 1], ss[|ss| - 1];
      SummaryDescribes(init, only);
      DescribesOneMore(init, last, only);
      assert init + [last] == ss;
    }
  }

  /** A record of another operation, or of none, leaves the answer for this one as it is. */
  lemma OthersAreIgnored(ss: seq<Sample>, x: Sample, operation: string)
    requires x.operation != Some(operation)
    ensures Summarise(ss + [x], Some(operation)) == Summarise(ss, Some(operation))
  {
    SummariseSnoc(ss, x, Some(operation));
  }

  /** The average is the sum divided by the count, rounded down. */
  lemma AverageIs(a: Summary)
    ensures a.count > 0 ==> Average(a) * a.count <= a.sum < Average(a) * a.count + a.count
    ensures a.count == 0 ==> Average(a) == 0
  {
  }

  // ---- sorted latencies -----------------------------------------------------------------

  predicate Ascending(xs: seq<nat>) {
    forall i, j :: 0 <= i < j < |xs| ==> xs[i] <= xs[j]
  }

  function Latencies(ss: seq<Sample>): (xs: seq<nat>)
    ensures |xs| == |ss| && forall i :: 0 <= i < |ss| ==> xs[i] == ss[i].latencyUs
  {
    seq(|ss|, i requires 0 <= i < |ss| => ss[i].latencyUs)
  }

  function Insert(xs: seq<Sample>, x: Sample): seq<Sample> {
    if xs == [] || xs[|xs| - 1].latencyUs <= x.latencyUs then xs + [x]
    else Insert(xs[..|xs| - 1], x) + [xs[|xs| - 1]]
  }

  function Sort(ss: seq<Sample>): seq<Sample> {
    if ss == [] then [] else Insert(Sort(ss[..|ss| - 1]), ss[|ss| - 1])
  }

  lemma {:induction false} InsertKeeps(xs: seq<Sample>, x: Sample)
    ensures multiset(Insert(xs, x)) == multiset(xs) + multiset{x}
    ensures |Insert(xs, x)| == |xs| + 1
  {
    if xs != [] && xs[|xs| - 1].latencyUs > x.latencyUs {
      InsertKeeps(xs[..|xs| - 1], x);
      assert xs == xs[..|xs| - 1] + [xs[|xs| - 1]];
    }
  }

  /** Samples in ascending order of latency. */
  predicate InOrder(ss: seq<Sample>) {
    forall i, j :: 0 <= i < j < |ss| ==> ss[i].latencyUs <= ss[j].latencyUs
  }

  lemma {:induction false} InsertSorts(xs: seq<Sample>, x: Sample)
    requires InOrder(xs)
    ensures InOrder(Insert(xs, x))
  {
    if xs != [] && xs[|xs| - 1].latencyUs > x.latencyUs {
      var init, last := xs[..|xs| - 1], xs[|xs| - 1];
      InsertSorts(init, x);
      InsertKeeps(init, x);
      var r := Insert(init, x);
      forall k | 0 <= k < |r| ensures r[k].latencyUs <= last.latencyUs {
        assert r[k] in multiset(r);
        if r[k] != x {
          var i :| 0 <= i < |init| && init[i] == r[k];
          assert xs[i].latencyUs <= xs[|xs| - 1].latencyUs;
        }
      }
    }
  }

  lemma {:induction false} SortSorts(ss: seq<Sample>)
    ensures multiset(Sort(ss)) == multiset(ss) && InOrder(Sort(ss))
  {
    hide Insert, InOrder;
    NothingInOrder();
    if ss != [] {
      var init := ss[..|ss| - 1];
      SortSorts(init);
      InsertSorts(Sort(init), ss[|ss| - 1]);
      InsertKeeps(Sort(init), ss[|ss| - 1]);
      assert ss == init + [ss[|ss| - 1]];
    }
  }

  lemma NothingInOrder()
    ensures InOrder([])
  {
  }

  lemma InOrderAscends(ss: seq<Sample>)
    requires InOrder(ss)
    ensures Ascending(Latencies(ss))
  {
  }

  lemma LatenciesAround(a: seq<Sample>, x: Sample, b: seq<Sample>)
    ensures multiset(Latencies(a + [x] + b)) == multiset(Latencies(a + b)) + multiset{x.latencyUs}
  {
    assert Latencies(a + [x] + b) == Latencies(a) + [x.latencyUs] + Latencies(b);
    assert Latencies(a + b) == Latencies(a) + Latencies(b);
  }

  /** The latencies of two lists with the same samples are the same values. */
  lemma {:induction false} LatenciesIgnoreOrder(s: seq<Sample>, t: seq<Sample>)
    requires multiset(s) == multiset(t)
    ensures multiset(Latencies(s)) == multiset(Latencies(t))
    decreases |s|
  {
    hide Latencies;
    SameSize(s, t);
    if s != [] {
      var init, x := s[..|s| - 1], s[|s| - 1];
      assert s == init + [x];
      var i := Occurs(x, s, t);
      RemoveOne(init, x, t, i);
      var u := t[..i] + t[i + 1..];
      LatenciesIgnoreOrder(init, u);
      LatenciesAround(init, x, []);
      LatenciesAround(t[..i], x, t[i + 1..]);
      assert init + [x] + [] == s && init + [] == init && t[..i] + [x] + t[i + 1..] == t;
    } else {
      assert Latencies(s) == [] && Latencies(t) == [];
    }
  }

  lemma WithoutLast(a: seq<nat>)
    requires a != []
    ensures multiset(a[..|a| - 1]) == multiset(a) - multiset{a[|a| - 1]}
  {
    assert a == a[..|a| - 1] + [a[|a| - 1]];
  }

  lemma LastIsLargest(a: seq<nat>, b: seq<nat>)
    requires multiset(a) == multiset(b) && Ascending(a) && a != [] && b != []
    ensures b[|b| - 1] <= a[|a| - 1]
  {
    var j := Occurs(b[|b| - 1], b, a);
  }

  /** There is only one ascending arrangement of given values. */
  lemma {:induction false} AscendingIsUnique(a: seq<nat>, b: seq<nat>)
    requires multiset(a) == multiset(b) && Ascending(a) && Ascending(b)
    ensures a == b
    decreases |a|
  {
    SameSize(a, b);
    if a != [] {
      LastIsLargest(a, b);
      LastIsLargest(b, a);
      WithoutLast(a);
      WithoutLast(b);
      AscendingIsUnique(a[..|a| - 1], b[..|b| - 1]);
      assert a == a[..|a| - 1] + [a[|a| - 1]] && b == b[..|b| - 1] + [b[|b| - 1]];
    }
  }

  /** The latency at rank `k` of the sorted samples. */
  function AtRank(ss: seq<Sample>, k: nat): nat
    requires k < |ss|
  {
    SortSorts(ss);
    SameSize(Sort(ss), ss);
    Sort(ss)[k].latencyUs
  }

  /** However a buffer was sorted, it shows the same latency at every rank. */
  lemma RankIgnoresOrder(s: seq<Sample>, t: seq<Sample>, k: nat)
    requires multiset(s) == multiset(t) && InOrder(s) && k < |s|
    ensures k < |t| && s[k].latencyUs == AtRank(t, k)
  {
    hide Sort, Ascending, InOrder;
    SortSorts(t);
    SameSize(s, t);
    InOrderAscends(s);
    InOrderAscends(Sort(t));
    LatenciesIgnoreOrder(s, Sort(t));
    AscendingIsUnique(Latencies(s), Latencies(Sort(t)));
    SameSize(Sort(t), t);
    assert Latencies(s)[k] == Latencies(Sort(t))[k];
  }

  function P50(n: nat): nat {
    n / 2
  }

  /** `(size_t)(n * 0.95)`, kept below n. */
  function P95(n: nat): nat
    requires n > 0
  {
    if n * 95 / 100 >= n then n - 1 else n * 95 / 100
  }

  function P99(n: nat): nat
    requires n > 0
  {
    if n * 99 / 100 >= n then n - 1 else n * 99 / 100
  }

  lemma PercentileRanks(n: nat)
    requires n > 0
    ensures P50(n) <= P95(n) <= P99(n) < n
  {
  }

  /** Each rank is the number of samples that fill its share of the buffer, rounded down. */
  lemma RanksMean(n: nat)
    requires n > 0
    ensures 100 * P50(n) <= 50 * n < 100 * (P50(n) + 1)
    ensures 100 * P95(n) <= 95 * n < 100 * (P95(n) + 1)
    ensures 100 * P99(n) <= 99 * n < 100 * (P99(n) + 1)
  {
  }

  /** The percentiles of the kept samples ascend, each is the latency of a recorded sample, and all lie between
    * the extremes of the whole history, of which the kept samples are only the first. */
  lemma PercentilesAscend(h: seq<Sample>, kept: seq<Sample>)
    requires kept != [] && kept <= h
    ensures P50(|kept|) <= P95(|kept|) <= P99(|kept|) < |kept|
    ensures var a := Summarise(h, None);
            a.min <= AtRank(kept, P50(|kept|)) <= AtRank(kept, P95(|kept|)) <= AtRank(kept, P99(|kept|)) <= a.max
    ensures forall k :: 0 <= k < |kept| ==> exists i :: 0 <= i < |kept| && kept[i].latencyUs == AtRank(kept, k)
  {
    hide Summarise, Sort;
    SortSorts(kept);
    SameSize(Sort(kept), kept);
    forall k | 0 <= k < |kept|
      ensures Summarise(h, None).min <= AtRank(kept, k) <= Summarise(h, None).max
      ensures exists i :: 0 <= i < |kept| && kept[i].latencyUs == AtRank(kept, k)
    {
      var i := Occurs(Sort(kept)[k], Sort(kept), kept);
      ExtremesBound(h, i);
    }
  }

  lemma {:induction false} ExtremesBound(ss: seq<Sample>, i: nat)
    requires i < |ss|
    ensures Summarise(ss, None).min <= ss[i].latencyUs <= Summarise(ss, None).max
  {
    if i < |ss| - 1 {
      ExtremesBound(ss[..|ss| - 1], i);
    }
  }

  // ---- the statistics and their shared buffer -------------------------------------------

  /** The statistics record. Copying it copies the reference to the buffer, not the buffer. */
  class Stats {
    var count: nat
    var minUs: nat
    var maxUs: nat
    var sumUs: nat
    var avgUs: nat
    var p50Us: nat
    var p95Us: nat
    var p99Us: nat
    var samples: array?<Sample>
    var sampleCapacity: nat
    var sampleCount: nat

    constructor ()
      ensures samples == null && sampleCapacity == sampleCount == 0
      ensures count == minUs == maxUs == sumUs == avgUs == p50Us == p95Us == p99Us == 0
    {
      count, minUs, maxUs, sumUs, avgUs, p50Us, p95Us, p99Us := 0, 0, 0, 0, 0, 0, 0, 0;
      samples, sampleCapacity, sampleCount := null, 0, 0;
    }

    /** The stored samples, in whatever order the buffer has. */
    ghost function Stored(): seq<Sample>
      reads this, samples
      requires samples != null && sampleCount <= samples.Length
    {
      samples[..sampleCount]
    }
  }

  function Summary32(s: Stats): Summary
    reads s
  {
    Summary(s.count, s.sumUs, s.minUs, s.maxUs)
  }

  /** Stands in for `qsort`: some permutation of the first `n` samples that ascends by latency. */
  method QSort(a: array<Sample>, n: nat)
    requires n <= a.Length
    modifies a
    ensures multiset(a[..n]) == multiset(old(a[..n])) && InOrder(a[..n])
    ensures a[n..] == old(a[n..])
  {
    var sorted := Sort(a[..n]);
    SortSorts(a[..n]);
    SameSize(sorted, a[..n]);
    forall i | 0 <= i < n {
      a[i] := sorted[i];
    }
    assert a[..n] == sorted;
  }

  function FirstFew(h: seq<Sample>, room: nat): seq<Sample> {
    if |h| < room then h else h[..room]
  }

  lemma FirstFewArePrefix(h: seq<Sample>, room: nat)
    ensures FirstFew(h, room) <= h && |FirstFew(h, room)| <= room
    ensures |FirstFew(h, room)| == |h| || |FirstFew(h, room)| == room
  {
  }

  class LatencySystem {
    const global: Stats
    var initialized: bool
    /** Every record since the last reset, in order. */
    ghost var history: seq<Sample>

    /** The samples the buffer had room for. */
    ghost function Kept(): seq<Sample>
      reads this, global
    {
      FirstFew(history, global.sampleCapacity)
    }

    /** The running aggregates summarise every record since the reset. */
    ghost predicate AggregatesHold()
      reads this, global
    {
      && |history| <= UINT32_MAX && Fits(history)
      && Summary32(global) == Summarise(history, None)
      && global.avgUs == Average(Summarise(history, None))
      && global.p50Us == global.p95Us == global.p99Us == 0
    }

    /** The buffer holds, in some order, the first of these records it had room for. */
    ghost predicate BufferHolds(h: seq<Sample>)
      reads global, global.samples
    {
      var kept := FirstFew(h, global.sampleCapacity);
      && global.sampleCount == |kept|
      && (if global.samples == null then global.sampleCapacity == 0
          else global.samples.Length == global.sampleCapacity && multiset(global.Stored()) == multiset(kept))
    }

    ghost predicate Valid()
      reads this, global, global.samples
    {
      AggregatesHold() && BufferHolds(history)
    }

    constructor ()
      ensures !initialized && fresh(global)
    {
      global := new Stats();
      initialized, history := false, [];
    }

    /** `latency_init`: `granted` says whether the buffer could be had. */
    method Init(maxSamples: nat, granted: bool) returns (result: int)
      requires initialized ==> Valid()
      modifies this`initialized, this`history, global
      ensures result == if old(initialized) || maxSamples == 0 || granted then 0 else -1
      ensures initialized == (result == 0)
      ensures initialized ==> Valid()
      ensures old(initialized) ==> history == old(history)
      ensures !old(initialized) && initialized ==> history == [] && global.sampleCapacity == maxSamples
    {
      if initialized {
        return 0;
      }
      Zero(global);
      history := [];
      if maxSamples > 0 {
        if !granted {
          return -1;
        }
        global.samples := new Sample[maxSamples](_ => Sample(0, 0, None, 0));
        global.sampleCapacity := maxSamples;
      }
      global.minUs := UINT32_MAX;
      initialized := true;
      return 0;
    }

    /** `memset(stats, 0, sizeof ...)`. */
    static method Zero(s: Stats)
      modifies s
      ensures s.samples == null && s.sampleCapacity == s.sampleCount == 0
      ensures s.count == s.minUs == s.maxUs == s.sumUs == s.avgUs == s.p50Us == s.p95Us == s.p99Us == 0
    {
      s.count, s.minUs, s.maxUs, s.sumUs, s.avgUs, s.p50Us, s.p95Us, s.p99Us := 0, 0, 0, 0, 0, 0, 0, 0;
      s.samples, s.sampleCapacity, s.sampleCount := null, 0, 0;
    }

    /** The aggregate half of `latency_record`; the 64-bit sum and the 32-bit count are shown not to wrap. */
    method Aggregate(latencyUs: nat, ghost before: seq<Sample>, ghost s: Sample)
      requires s.latencyUs == latencyUs && latencyUs <= UINT32_MAX && |before| < UINT32_MAX && Fits(before)
      requires Summary32(global) == Summarise(before, None)
      modifies global`count, global`sumUs, global`minUs, global`maxUs, global`avgUs
      ensures Summary32(global) == Summarise(before + [s], None)
      ensures global.avgUs == Average(Summarise(before + [s], None))
    {
      hide Summarise;
      ghost var after := before + [s];
      SummariseSnoc(before, s, None);
      NoWrap(after, None);
      AverageIsBetween(after, None);
      global.count := Wrap32(global.count + 1);
      global.sumUs := (global.sumUs + latencyUs) % 0x1_0000_0000_0000_0000;
      if latencyUs < global.minUs {
        global.minUs := latencyUs;
      }
      if latencyUs > global.maxUs {
        global.maxUs := latencyUs;
      }
      global.avgUs := Wrap32(global.sumUs / global.count);
    }

    /** `latency_record`, for fewer than 2^32 records since the reset. */
    method Record(s: Sample) returns (result: int)
      requires s.latencyUs <= UINT32_MAX
      requires initialized ==> Valid() && |history| < UINT32_MAX
      modifies this`history, global, global.samples
      ensures initialized == old(initialized) && result == if initialized then 0 else -1
      ensures initialized ==> Valid() && history == old(history) + [s]
      ensures global.samples == old(global.samples) && global.sampleCapacity == old(global.sampleCapacity)
      ensures !initialized ==> history == old(history)
    {
      hide Summarise, Average, FirstFew, Fits;
      if !initialized {
        return -1;
      }
      FitsSnoc(history, s);
      Store(s, history);
      Aggregate(s.latencyUs, history, s);
      history := history + [s];
      return 0;
    }

    /** The buffer half of `latency_record`: the sample is stored while there is room. */
    method Store(s: Sample, ghost h: seq<Sample>)
      requires BufferHolds(h)
      modifies global`sampleCount, global.samples
      ensures BufferHolds(h + [s]) && global.samples == old(global.samples)
    {
      ghost var before, after := FirstFew(h, global.sampleCapacity), FirstFew(h + [s], global.sampleCapacity);
      if global.samples != null && global.sampleCount < global.sampleCapacity {
        ghost var stored := global.Stored();
        global.samples[global.sampleCount] := s;
        global.sampleCount := global.sampleCount + 1;
        assert global.Stored() == stored + [s] && after == before + [s];
      } else {
        assert after == before;
      }
    }

    /** `calculate_percentiles`: sorts the buffer the record refers to, in place. */
    static method CalculatePercentiles(stats: Stats)
      requires stats.samples != null ==> stats.sampleCount <= stats.samples.Length
      modifies stats`p50Us, stats`p95Us, stats`p99Us, stats.samples
      ensures stats.samples == null || stats.sampleCount == 0 ==>
                stats.p50Us == old(stats.p50Us) && stats.p95Us == old(stats.p95Us) && stats.p99Us == old(stats.p99Us)
      ensures stats.samples != null ==>
                multiset(stats.Stored()) == multiset(old(stats.Stored())) && InOrder(stats.Stored())
      ensures stats.samples != null && stats.sampleCount > 0 ==>
                var ss, n := old(stats.Stored()), stats.sampleCount;
                stats.p50Us == AtRank(ss, P50(n)) && stats.p95Us == AtRank(ss, P95(n)) && stats.p99Us == AtRank(ss, P99(n))
    {
      if stats.samples == null || stats.sampleCount == 0 {
        return;
      }
      ghost var ss := stats.Stored();
      QSort(stats.samples, stats.sampleCount);
      var n := stats.sampleCount;
      ghost var sorted := stats.Stored();
      PercentileRanks(n);
      RankIgnoresOrder(sorted, ss, P50(n));
      RankIgnoresOrder(sorted, ss, P95(n));
      RankIgnoresOrder(sorted, ss, P99(n));
      stats.p50Us := stats.samples[P50(n)].latencyUs;
      stats.p95Us := stats.samples[P95(n)].latencyUs;
      stats.p99Us := stats.samples[P99(n)].latencyUs;
    }

    /** `latency_get_stats`: the caller's record shares the live buffer, so its sort reorders it; everything later
      * calls can observe is unchanged, and the answer is a function of the history alone. */
    method GetStats(stats: Stats) returns (result: int)
      requires stats != global
      requires initialized ==> Valid()
      modifies stats, global.samples
      ensures initialized == old(initialized) && history == old(history) && result == if initialized then 0 else -1
      ensures initialized ==> Valid()
      ensures initialized ==>
                && stats.samples == global.samples && stats.sampleCount == |Kept()|
                && Summary32(stats) == Summarise(history, None)
                && stats.avgUs == Average(Summarise(history, None))
      ensures initialized && global.samples != null && Kept() != [] ==>
                var n := |Kept()|;
                stats.p50Us == AtRank(Kept(), P50(n)) && stats.p95Us == AtRank(Kept(), P95(n)) &&
                stats.p99Us == AtRank(Kept(), P99(n))
      ensures initialized && (global.samples == null || Kept() == []) ==> stats.p50Us == stats.p95Us == stats.p99Us == 0
      ensures initialized && global.samples != null && Kept() != [] ==>
                stats.minUs <= stats.p50Us <= stats.p95Us <= stats.p99Us <= stats.maxUs
      ensures initialized && history != [] ==> stats.minUs <= stats.avgUs <= stats.maxUs
      ensures initialized && global.samples != null ==> InOrder(stats.Stored())
      ensures initialized ==>
                && Describes(Summary32(stats), Chosen(history, None))
                && (stats.sampleCount == stats.count || stats.sampleCount == stats.sampleCapacity)
                && stats.sampleCount <= stats.sampleCapacity
    {
      hide AtRank, Summarise, Average, P50, P95, P99, Fits, FirstFew, InOrder, Describes, Chosen;
      if !initialized {
        return -1;
      }
      ghost var kept := Kept();
      FirstFewArePrefix(history, global.sampleCapacity);
      DescribesAll(history);
      NothingInOrder();
      CopyTo(stats);
      if stats.samples != null && kept != [] {
        PercentilesOfBuffer(history, kept, stats.Stored());
      }
      if history != [] {
        AverageOfAll(history);
      }
      CalculatePercentiles(stats);
      return 0;
    }

    /** `*stats = global_stats`: every field, the buffer by reference. */
    method CopyTo(stats: Stats)
      requires stats != global
      modifies stats
      ensures Summary32(stats) == Summary32(global) && stats.avgUs == global.avgUs
      ensures stats.p50Us == global.p50Us && stats.p95Us == global.p95Us && stats.p99Us == global.p99Us
      ensures stats.samples == global.samples && stats.sampleCapacity == global.sampleCapacity
      ensures stats.sampleCount == global.sampleCount
    {
      stats.count, stats.minUs, stats.maxUs, stats.sumUs := global.count, global.minUs, global.maxUs, global.sumUs;
      stats.avgUs, stats.p50Us, stats.p95Us, stats.p99Us := global.avgUs, global.p50Us, global.p95Us, global.p99Us;
      stats.samples, stats.sampleCapacity, stats.sampleCount := global.samples, global.sampleCapacity, global.sampleCount;
    }

    /** `latency_get_stats_for_operation`: a summary of the kept samples of one operation, whatever order earlier
      * readers left the buffer in. */
    method GetStatsForOperation(operation: Option<string>, stats: Stats) returns (result: int)
      requires stats != global
      requires initialized ==> Valid()
      modifies stats
      ensures initialized == old(initialized) && history == old(history) && (initialized ==> Valid())
      ensures result == if operation.Some? && initialized && global.samples != null then 0 else -1
      ensures result == 0 ==> Summary32(stats) == Summarise(Kept(), operation)
      ensures result == 0 ==> stats.avgUs == Average(Summarise(Kept(), operation))
      ensures result == 0 ==> Describes(Summary32(stats), Chosen(Kept(), operation))
    {
      hide Summarise, Describes, Chosen;
      if operation.None? || !initialized {
        return -1;
      }
      Zero(stats);
      stats.minUs := UINT32_MAX;
      if global.samples == null {
        return -1;
      }
      ghost var stored := global.Stored();
      KeptFits();
      SummaryDescribes(Kept(), operation);
      SameSize(Kept(), stored);
      SameElementsFit(Kept(), stored);
      FilterSamples(operation, stats);
      if stats.count > 0 {
        AverageIsBetween(stored, operation);
        stats.avgUs := Wrap32(stats.sumUs / stats.count);
      }
      SummaryIgnoresOrder(stored, Kept(), operation);
      return 0;
    }

    /** The filtering loop over the buffer. */
    method FilterSamples(operation: Option<string>, stats: Stats)
      requires stats != global && operation.Some? && global.samples != null && global.sampleCount <= global.samples.Length
      requires Fits(global.Stored()) && global.sampleCount <= UINT32_MAX && Summary32(stats) == NOTHING
      modifies stats`count, stats`sumUs, stats`minUs, stats`maxUs
      ensures Summary32(stats) == Summarise(global.Stored(), operation)
    {
      hide Summarise, Fits;
      ghost var stored := global.Stored();
      SummariseSnoc([], Sample(0, 0, None, 0), operation);
      for i := 0 to global.sampleCount
        invariant Summary32(stats) == Summarise(stored[..i], operation)
      {
        var s := global.samples[i];
        assert stored[..i] + [s] == stored[..i + 1];
        SummariseSnoc(stored[..i], s, operation);
        FitsPrefix(stored, i + 1);
        NoWrap(stored[..i + 1], operation);
        if s.operation.Some? && s.operation == operation {
          stats.count := Wrap32(stats.count + 1);
          stats.sumUs := (stats.sumUs + s.latencyUs) % 0x1_0000_0000_0000_0000;
          if s.latencyUs < stats.minUs {
            stats.minUs := s.latencyUs;
          }
          if s.latencyUs > stats.maxUs {
            stats.maxUs := s.latencyUs;
          }
        }
      }
      assert stored[..global.sampleCount] == stored;
    }

    static lemma FitsSnoc(ss: seq<Sample>, s: Sample)
      requires Fits(ss) && s.latencyUs <= UINT32_MAX
      ensures Fits(ss + [s])
    {
    }

    static lemma FitsPrefix(ss: seq<Sample>, n: nat)
      requires Fits(ss) && n <= |ss|
      ensures Fits(ss[..n])
    {
    }

    lemma KeptFits()
      requires Fits(history)
      ensures Fits(Kept())
    {
    }

    static lemma NothingKept(room: nat)
      ensures FirstFew([], room) == [] && Summarise([], None) == NOTHING && Average(NOTHING) == 0 && Fits([])
    {
    }

    /** `latency_reset_stats`: the aggregates and the fill level restart; the buffer and its room stay. */
    method Reset()
      requires initialized ==> Valid()
      modifies this`history, global
      ensures initialized == old(initialized)
      ensures initialized ==> Valid() && history == []
      ensures global.samples == old(global.samples) && global.sampleCapacity == old(global.sampleCapacity)
      ensures !initialized ==> history == old(history)
    {
      hide Summarise, Average, FirstFew, Fits;
      NothingKept(global.sampleCapacity);
      if !initialized {
        return;
      }
      history := [];
      global.count, global.minUs, global.maxUs, global.sumUs := 0, UINT32_MAX, 0, 0;
      global.avgUs, global.p50Us, global.p95Us, global.p99Us := 0, 0, 0, 0;
      global.sampleCount := 0;
    }
  }

  lemma SameElementsFit(s: seq<Sample>, t: seq<Sample>)
    requires multiset(s) == multiset(t) && Fits(s)
    ensures Fits(t)
  {
    forall i | 0 <= i < |t| ensures t[i].latencyUs <= 0xFFFF_FFFF {
      var j := Occurs(t[i], t, s);
    }
  }

  /** The percentiles of two orders of the same samples are equal. */
  lemma RanksAgree(s: seq<Sample>, t: seq<Sample>)
    requires multiset(s) == multiset(t) && s != []
    ensures |s| == |t|
    ensures forall k :: 0 <= k < |s| ==> AtRank(s, k) == AtRank(t, k)
  {
    hide Sort, InOrder;
    SameSize(s, t);
    SortSorts(s);
    SameSize(Sort(s), s);
    forall k | 0 <= k < |s| ensures AtRank(s, k) == AtRank(t, k) {
      RankIgnoresOrder(Sort(s), t, k);
    }
  }

  /** The percentiles read off the buffer, whatever its order, are those of the kept samples. */
  lemma PercentilesOfBuffer(h: seq<Sample>, kept: seq<Sample>, stored: seq<Sample>)
    requires kept != [] && kept <= h && multiset(stored) == multiset(kept)
    ensures |stored| == |kept| && P50(|kept|) <= P95(|kept|) <= P99(|kept|) < |kept|
    ensures var n := |kept|;
            && AtRank(stored, P50(n)) == AtRank(kept, P50(n))
            && AtRank(stored, P95(n)) == AtRank(kept, P95(n))
            && AtRank(stored, P99(n)) == AtRank(kept, P99(n))
    ensures var n, a := |kept|, Summarise(h, None);
            a.min <= AtRank(kept, P50(n)) <= AtRank(kept, P95(n)) <= AtRank(kept, P99(n)) <= a.max
  {
    hide AtRank, Summarise, P50, P95, P99;
    SameSize(stored, kept);
    RanksAgree(stored, kept);
    PercentilesAscend(h, kept);
  }

  // ---- interleavings --------------------------------------------------------------------

  datatype Op = RecordOp(sample: Sample) | StatsOp | OperationOp(operation: Option<string>) | ResetOp

  /** The records since the last reset, after a list of operations: readers leave no trace. */
  ghost function HistoryAfter(h: seq<Sample>, ops: seq<Op>): seq<Sample> {
    if ops == [] then h
    else Step(HistoryAfter(h, ops[..|ops| - 1]), ops[|ops| - 1])
  }

  ghost function Step(h: seq<Sample>, op: Op): seq<Sample> {
    match op
    case RecordOp(s) => h + [s]
    case StatsOp => h
    case OperationOp(_) => h
    case ResetOp => []
  }

  method PerformOne(sys: LatencySystem, op: Op, scratch: Stats)
    requires sys.initialized && sys.Valid() && scratch != sys.global
    requires op.RecordOp? ==> |sys.history| < UINT32_MAX && op.sample.latencyUs <= UINT32_MAX
    modifies sys, sys.global, sys.global.samples, scratch
    ensures sys.initialized && sys.Valid() && sys.history == Step(old(sys.history), op)
    ensures sys.global.samples == old(sys.global.samples)
  {
    match op
    case RecordOp(s) =>
      var r := sys.Record(s);
    case StatsOp =>
      var r := sys.GetStats(scratch);
    case OperationOp(op) =>
      var r := sys.GetStatsForOperation(op, scratch);
    case ResetOp =>
      sys.Reset();
  }

  /** Any interleaving of records, readers and resets leaves a system whose aggregates, buffer contents and
    * answers are those of its records alone. */
  method Perform(sys: LatencySystem, ops: seq<Op>, scratch: Stats)
    requires sys.initialized && sys.Valid() && scratch != sys.global
    requires forall i :: 0 <= i <= |ops| ==> |HistoryAfter(sys.history, ops[..i])| < UINT32_SPAN
    requires forall i :: 0 <= i < |ops| && ops[i].RecordOp? ==> ops[i].sample.latencyUs <= UINT32_MAX
    modifies sys, sys.global, sys.global.samples, scratch
    ensures sys.initialized && sys.Valid() && sys.history == HistoryAfter(old(sys.history), ops)
  {
    ghost var h := sys.history;
    for i := 0 to |ops|
      invariant sys.initialized && sys.Valid() && sys.history == HistoryAfter(h, ops[..i])
      invariant sys.global.samples == old(sys.global.samples)
    {
      assert ops[..i + 1][..i] == ops[..i];
      assert |HistoryAfter(h, ops[..i + 1])| < UINT32_SPAN;
      PerformOne(sys, ops[i], scratch);
    }
    assert ops[..|ops|] == ops;
  }
}
