/** The universal sender, which tries every code of a button, and the scan that finds the code a TV answers to. */
module UniversalTv {
  import opened Arithmetic
  import opened Options

  datatype Protocol = Nec | Rc5 | Rc6 | Sony | Other

  const UNKNOWN_BRAND: nat := 0

  /** One entry of a button's code table. */
  datatype Entry = Entry(code: nat, protocol: Protocol, brand: nat)

  type Table = map<nat, seq<Entry>>

  predicate Supported(e: Entry): (ok: bool)
    ensures ok <==> e.protocol == Nec || e.protocol == Rc5 || e.protocol == Rc6 || e.protocol == Sony
  {
    !e.protocol.Other?
  }

  /** The entry is for the chosen brand. */
  predicate Preferred(e: Entry, brand: nat) {
    brand != UNKNOWN_BRAND && e.brand == brand
  }

  /** The indices among the first `n` entries that are, or are not, for the brand, in table order. */
  function Pass(codes: seq<Entry>, brand: nat, preferred: bool, n: nat): seq<nat>
    requires n <= |codes|
  {
    if n == 0 then []
    else Pass(codes, brand, preferred, n - 1) + if Preferred(codes[n - 1], brand) == preferred then [n - 1] else []
  }

  /** The order in which the entries are attempted. */
  function Order(codes: seq<Entry>, brand: nat): seq<nat> {
    Pass(codes, brand, true, |codes|) + Pass(codes, brand, false, |codes|)
  }

  /** The entries at these places of a table. */
  ghost function EntriesAt(codes: seq<Entry>, at: seq<nat>): (es: seq<Entry>)
    requires forall k :: 0 <= k < |at| ==> at[k] < |codes|
    ensures |es| == |at| && forall k :: 0 <= k < |at| ==> es[k] == codes[at[k]]
  {
    seq(|at|, k requires 0 <= k < |at| => codes[at[k]])
  }

  /** How often an index occurs in a list. */
  ghost function Occurrences(s: seq<nat>, i: nat): nat {
    if s == [] then 0 else Occurrences(s[..|s| - 1], i) + if s[|s| - 1] == i then 1 else 0
  }

  lemma {:induction false} OccurrencesConcat(a: seq<nat>, b: seq<nat>, i: nat)
    ensures Occurrences(a + b, i) == Occurrences(a, i) + Occurrences(b, i)
    decreases |b|
  {
    if b == [] {
      assert a + b == a;
    } else {
      OccurrencesConcat(a, b[..|b| - 1], i);
      assert (a + b)[..|a + b| - 1] == a + b[..|b| - 1];
    }
  }

  lemma NoOccurrences(i: nat)
    ensures Occurrences([], i) == 0
    ensures forall x: nat :: Occurrences([x], i) == if x == i then 1 else 0
  {
    forall x: nat ensures Occurrences([x], i) == if x == i then 1 else 0 {
      assert [x][..0] == [];
    }
  }

  lemma {:induction false} OccursAt(s: seq<nat>, i: nat) returns (k: nat)
    requires Occurrences(s, i) > 0
    ensures k < |s| && s[k] == i
  {
    if s[|s| - 1] == i {
      k := |s| - 1;
    } else {
      k := OccursAt(s[..|s| - 1], i);
    }
  }

  /** With no brand chosen the order is the table's own; with one, an entry is in the first part exactly when it is of
    * that brand. */
  lemma OrderByBrand(codes: seq<Entry>, brand: nat)
    ensures |Order(codes, brand)| == |codes|
    ensures brand == UNKNOWN_BRAND ==> forall k :: 0 <= k < |codes| ==> Order(codes, brand)[k] == k
    ensures forall k :: 0 <= k < |codes| ==> Order(codes, brand)[k] < |codes|
    ensures var m := |Pass(codes, brand, true, |codes|)|;
            brand != UNKNOWN_BRAND ==>
              forall k :: 0 <= k < |codes| ==> (codes[Order(codes, brand)[k]].brand == brand <==> k < m)
  {
    hide Pass;
    PassLengths(codes, brand, |codes|);
    PassSelects(codes, brand, true, |codes|);
    PassSelects(codes, brand, false, |codes|);
    if brand == UNKNOWN_BRAND {
      NoPreference(codes, |codes|);
    }
  }

  lemma {:induction false} NoPreference(codes: seq<Entry>, n: nat)
    requires n <= |codes|
    ensures Pass(codes, UNKNOWN_BRAND, true, n) == []
    ensures var rest := Pass(codes, UNKNOWN_BRAND, false, n); |rest| == n && forall k :: 0 <= k < n ==> rest[k] == k
  {
    if n > 0 {
      NoPreference(codes, n - 1);
    }
  }

  /** Indices below `n` of entries of one kind, in table order. */
  ghost predicate Selects(s: seq<nat>, codes: seq<Entry>, brand: nat, preferred: bool, n: nat)
    requires n <= |codes|
  {
    && (forall k :: 0 <= k < |s| ==> s[k] < n && Preferred(codes[s[k]], brand) == preferred)
    && (forall j, k :: 0 <= j < k < |s| ==> s[j] < s[k])
  }

  lemma {:induction false} PassSelects(codes: seq<Entry>, brand: nat, preferred: bool, n: nat)
    requires n <= |codes|
    ensures Selects(Pass(codes, brand, preferred, n), codes, brand, preferred, n)
  {
    hide Preferred;
    if n > 0 {
      PassSelects(codes, brand, preferred, n - 1);
    }
  }

  lemma {:induction false} PassHolds(codes: seq<Entry>, brand: nat, preferred: bool, n: nat, i: nat)
    requires n <= |codes|
    ensures Occurrences(Pass(codes, brand, preferred, n), i)
         == if i < n && Preferred(codes[i], brand) == preferred then 1 else 0
  {
    hide Preferred, Occurrences;
    NoOccurrences(i);
    if n > 0 {
      var before := Pass(codes, brand, preferred, n - 1);
      PassHolds(codes, brand, preferred, n - 1, i);
      OccurrencesConcat(before, [n - 1], i);
      assert before + [] == before;
    }
  }

  /** The send order is a stable partition: every entry exactly once, the brand's entries first, each group in table
    * order. */
  lemma OrderIsStablePartition(codes: seq<Entry>, brand: nat)
    ensures |Order(codes, brand)| == |codes|
    ensures forall i: nat :: Occurrences(Order(codes, brand), i) == if i < |codes| then 1 else 0
    ensures forall k :: 0 <= k < |Order(codes, brand)| ==> Order(codes, brand)[k] < |codes|
    ensures forall j, k :: 0 <= j < k < |Order(codes, brand)| ==>
              var a, b := codes[Order(codes, brand)[j]], codes[Order(codes, brand)[k]];
              && (Preferred(b, brand) ==> Preferred(a, brand))
              && (Preferred(a, brand) == Preferred(b, brand) ==> Order(codes, brand)[j] < Order(codes, brand)[k])
  {
    hide Preferred, Pass, Occurrences;
    var first, rest := Pass(codes, brand, true, |codes|), Pass(codes, brand, false, |codes|);
    PassSelects(codes, brand, true, |codes|);
    PassSelects(codes, brand, false, |codes|);
    PassLengths(codes, brand, |codes|);
    forall i: nat ensures Occurrences(Order(codes, brand), i) == if i < |codes| then 1 else 0 {
      PassHolds(codes, brand, true, |codes|, i);
      PassHolds(codes, brand, false, |codes|, i);
      OccurrencesConcat(first, rest, i);
    }
  }

  lemma {:induction false} PassLengths(codes: seq<Entry>, brand: nat, n: nat)
    requires n <= |codes|
    ensures |Pass(codes, brand, true, n)| + |Pass(codes, brand, false, n)| == n
  {
    if n > 0 {
      PassLengths(codes, brand, n - 1);
    }
  }

  /** An entry with a known brand is inside the brand prefix once that brand is chosen. */
  lemma ConfirmedComesFirst(codes: seq<Entry>, i: nat)
    requires i < |codes| && codes[i].brand != UNKNOWN_BRAND
    ensures |Order(codes, codes[i].brand)| == |codes|
    ensures exists k :: 0 <= k < |Pass(codes, codes[i].brand, true, |codes|)| && Order(codes, codes[i].brand)[k] == i
    ensures forall m :: |Pass(codes, codes[i].brand, true, |codes|)| <= m < |codes| ==>
              Order(codes, codes[i].brand)[m] < |codes| && codes[Order(codes, codes[i].brand)[m]].brand != codes[i].brand
  {
    hide Pass;
    var brand := codes[i].brand;
    PassLengths(codes, brand, |codes|);
    var first := Pass(codes, brand, true, |codes|);
    PassHolds(codes, brand, true, |codes|, i);
    var k := OccursAt(first, i);
    assert Order(codes, brand)[k] == i;
    PassSelects(codes, brand, false, |codes|);
  }

  /** The entries among the first `n` that a pass attempts. */
  ghost function PassEntries(codes: seq<Entry>, brand: nat, preferred: bool, n: nat): seq<Entry>
    requires n <= |codes|
  {
    if n == 0 then []
    else PassEntries(codes, brand, preferred, n - 1) + if Preferred(codes[n - 1], brand) == preferred then [codes[n - 1]] else []
  }

  lemma {:induction false} PassEntriesAre(codes: seq<Entry>, brand: nat, preferred: bool, n: nat)
    requires n <= |codes|
    ensures forall k :: 0 <= k < |Pass(codes, brand, preferred, n)| ==> Pass(codes, brand, preferred, n)[k] < |codes|
    ensures PassEntries(codes, brand, preferred, n) == EntriesAt(codes, Pass(codes, brand, preferred, n))
  {
    hide Preferred;
    if n > 0 {
      PassEntriesAre(codes, brand, preferred, n - 1);
    }
  }

  lemma OrderEntriesAre(codes: seq<Entry>, brand: nat)
    ensures forall k :: 0 <= k < |Order(codes, brand)| ==> Order(codes, brand)[k] < |codes|
    ensures PassEntries(codes, brand, true, |codes|) + PassEntries(codes, brand, false, |codes|)
         == EntriesAt(codes, Order(codes, brand))
  {
    hide Pass, PassEntries;
    PassEntriesAre(codes, brand, true, |codes|);
    PassEntriesAre(codes, brand, false, |codes|);
  }

  class Universal {
    const table: Table
    var currentBrand: nat
    var scanActive: bool
    var scanButton: nat
    var scanIndex: nat
    var scanLastSent: int
    var scanCodes: Option<seq<Entry>>

    /** Every table entry transmitted or refused so far. */
    ghost var attempted: seq<Entry>
    /** Successful scan steps since the scan started. */
    ghost var steps: nat

    ghost predicate Valid()
      reads this
    {
      scanActive ==>
        && scanCodes.Some? && scanCodes.value != []
        && scanIndex == steps % |scanCodes.value|
        && scanLastSent == if steps == 0 then -1 else (steps - 1) % |scanCodes.value|
    }

    constructor (table: Table)
      ensures Valid() && !scanActive && currentBrand == UNKNOWN_BRAND && this.table == table && attempted == []
    {
      this.table := table;
      currentBrand, scanActive, scanButton, scanIndex, scanLastSent := UNKNOWN_BRAND, false, 0, 0, -1;
      scanCodes, attempted, steps := None, [], 0;
    }

    function Codes(button: nat): seq<Entry> {
      if button in table then table[button] else []
    }

    /** `send_code_with_protocol`: everything but an unknown protocol is sent. */
    method SendCode(e: Entry) returns (ok: bool)
      modifies this`attempted
      ensures ok == Supported(e) && attempted == old(attempted) + [e]
    {
      ok := Supported(e);
      attempted := attempted + [e];
    }

    /** `universal_tv_send_button`; `standard` is the result of the ordinary sender for a button without codes. */
    method SendButton(button: nat, standard: int) returns (result: int)
      modifies this`attempted
      ensures Codes(button) == [] ==> result == standard && attempted == old(attempted)
      ensures Codes(button) != [] ==>
                && (forall k :: 0 <= k < |Order(Codes(button), currentBrand)| ==>
                      Order(Codes(button), currentBrand)[k] < |Codes(button)|)
                && attempted == old(attempted) + EntriesAt(Codes(button), Order(Codes(button), currentBrand))
                && (result == 0 <==> exists i :: 0 <= i < |Codes(button)| && Supported(Codes(button)[i]))
                && (result == 0 || result == -1)
    {
      var codes := Codes(button);
      if codes == [] {
        return standard;
      }
      hide Order, EntriesAt, Pass;
      ghost var before := attempted;
      var sent := 0;
      OrderEntriesAre(codes, currentBrand);
      for i := 0 to |codes|
        invariant attempted == before + PassEntries(codes, currentBrand, true, i)
        invariant sent > 0 <==> exists k :: 0 <= k < i && Preferred(codes[k], currentBrand) && Supported(codes[k])
        invariant sent >= 0
      {
        if currentBrand != UNKNOWN_BRAND && codes[i].brand == currentBrand {
          var ok := SendCode(codes[i]);
          if ok {
            sent := sent + 1;
          }
        }
      }
      ghost var first := PassEntries(codes, currentBrand, true, |codes|);
      for i := 0 to |codes|
        invariant attempted == before + first + PassEntries(codes, currentBrand, false, i)
        invariant sent > 0 <==> exists k :: 0 <= k < |codes| && Supported(codes[k]) && (Preferred(codes[k], currentBrand) || k < i)
        invariant sent >= 0
      {
        if currentBrand != UNKNOWN_BRAND && codes[i].brand == currentBrand {
          continue;
        }
        var ok := SendCode(codes[i]);
        if ok {
          sent := sent + 1;
        }
      }
      assert attempted == before + EntriesAt(codes, Order(codes, currentBrand));
      return if sent > 0 then 0 else -1;
    }

    method ScanStart(button: nat) returns (result: int)
      requires Valid()
      modifies this`scanActive, this`scanButton, this`scanIndex, this`scanLastSent, this`scanCodes, this`steps
      ensures Valid() && result == if Codes(button) == [] then -1 else 0
      ensures result == 0 ==> scanActive && scanButton == button && scanCodes == Some(Codes(button)) && steps == 0
      ensures result != 0 ==> scanActive == old(scanActive) && steps == old(steps) && scanCodes == old(scanCodes)
    {
      var codes := Codes(button);
      if codes == [] {
        return -1;
      }
      scanActive, scanButton, scanIndex, scanLastSent, scanCodes := true, button, 0, -1, Some(codes);
      steps := 0;
      return 0;
    }

    /** `universal_tv_scan_next`: try the next entry, wrapping at the end; the "scan complete" branch is shown
      * unreachable. */
    method ScanNext() returns (result: int)
      requires Valid()
      modifies this`scanIndex, this`scanLastSent, this`attempted, this`steps
      ensures Valid() && result == if scanActive then 0 else -1
      ensures scanActive ==>
                steps == old(steps) + 1 && attempted == old(attempted) + [scanCodes.value[old(steps) % |scanCodes.value|]]
      ensures !scanActive ==> steps == old(steps) && attempted == old(attempted)
    {
      if !scanActive || scanCodes.None? {
        return -1;
      }
      var codes := scanCodes.value;
      ghost var n := |codes|;
      if scanIndex >= |codes| {
        assert false;
      }
      var ok := SendCode(codes[scanIndex]);
      scanLastSent := scanIndex;
      NextIndex(steps, n);
      scanIndex := scanIndex + 1;
      if scanIndex >= |codes| {
        scanIndex := 0;
      }
      steps := steps + 1;
      return 0;
    }

    /** `universal_tv_scan_confirm`: after k >= 1 steps the entry at (k - 1) mod n is chosen, and its brand, when
      * known, becomes the current one. */
    method ScanConfirm() returns (result: int)
      requires Valid()
      modifies this`currentBrand, this`scanActive, this`scanCodes, this`scanLastSent
      ensures Valid()
      ensures result == if old(scanActive) && steps > 0 then 0 else -1
      ensures result != 0 ==> currentBrand == old(currentBrand) && scanActive == old(scanActive) && scanCodes == old(scanCodes)
      ensures result == 0 ==>
                var codes := old(scanCodes).value;
                var chosen := codes[(steps - 1) % |codes|];
                !scanActive && currentBrand == if chosen.brand != UNKNOWN_BRAND then chosen.brand else old(currentBrand)
    {
      if !scanActive || scanCodes.None? || scanLastSent < 0 {
        return -1;
      }
      var chosen := scanCodes.value[scanLastSent];
      if chosen.brand != UNKNOWN_BRAND {
        currentBrand := chosen.brand;
      }
      scanActive, scanCodes, scanLastSent := false, None, -1;
      return 0;
    }

    method ScanCancel()
      requires Valid()
      modifies this`scanActive, this`scanCodes, this`scanLastSent
      ensures Valid() && !scanActive && (!old(scanActive) ==> scanCodes == old(scanCodes))
    {
      if scanActive {
        scanActive, scanCodes, scanLastSent := false, None, -1;
      }
    }

    /** A whole scan: start, k >= 1 steps, confirm. The entry at (k - 1) mod n decides the brand, and when that brand
      * is known the next send of the button attempts it before every entry of another brand. */
    method Scan(button: nat, k: nat) returns (ghost chosen: nat)
      requires Valid() && Codes(button) != [] && k >= 1
      modifies this
      ensures Valid() && !scanActive && chosen == (k - 1) % |Codes(button)|
      ensures |attempted| == |old(attempted)| + k && old(attempted) <= attempted
      ensures forall i :: 0 <= i < k ==> attempted[|old(attempted)| + i] == Codes(button)[i % |Codes(button)|]
      ensures var brand := Codes(button)[chosen].brand;
              currentBrand == if brand != UNKNOWN_BRAND then brand else old(currentBrand)
      ensures Codes(button)[chosen].brand != UNKNOWN_BRAND ==>
                chosen in Pass(Codes(button), currentBrand, true, |Codes(button)|)
    {
      ghost var codes, before := Codes(button), attempted;
      var r := ScanStart(button);
      for i := 0 to k
        invariant Valid() && scanActive && steps == i && scanCodes == Some(codes) && currentBrand == old(currentBrand)
        invariant |attempted| == |before| + i && before <= attempted
        invariant forall j :: 0 <= j < i ==> attempted[|before| + j] == codes[j % |codes|]
      {
        r := ScanNext();
      }
      r := ScanConfirm();
      chosen := (k - 1) % |codes|;
      if codes[chosen].brand != UNKNOWN_BRAND {
        ConfirmedComesFirst(codes, chosen);
      }
    }
  }

  lemma NextIndex(steps: nat, n: nat)
    requires n > 0
    ensures (steps + 1) % n == if steps % n + 1 >= n then 0 else steps % n + 1
  {
    var q, r := steps / n, steps % n;
    assert steps == n * q + r;
    if r + 1 >= n {
      assert steps + 1 == n * (q + 1) + 0;
      QuotientIs(steps + 1, n, q + 1, 0);
    } else {
      QuotientIs(steps + 1, n, q, r + 1);
    }
  }
}
