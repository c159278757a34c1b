/** Channel selection of the virtual TV: channel up and down, and timed three-digit entry. */
module ChannelEntry {
  import opened Options

  const CHANNEL_INPUT_TIMEOUT_SEC := 2.0

  /** The buttons that reach the channel, with the time at which a digit is handled. */
  datatype Press = Power | ChannelUp | ChannelDown | Digit(digit: nat, now: real)

  predicate Legal(p: Press) {
    p.Digit? ==> p.digit <= 9
  }

  datatype Tv = Tv(poweredOn: bool, channel: int, input: string, inputTime: Option<real>)

  const START := Tv(false, 1, "", None)

  function Up(channel: int): int {
    channel % 999 + 1
  }

  function Down(channel: int): int {
    (channel - 2) % 999 + 1
  }

  function Text(digit: nat): (t: string)
    requires digit <= 9
    ensures |t| == 1
  {
    ["0123456789"[digit]]
  }

  predicate IsDigit(c: char) {
    '0' as int <= c as int <= '9' as int
  }

  /** `int(s)` on digit strings; anything else raises ValueError. */
  function ParseInt(s: string): Option<nat> {
    if s == [] || exists i :: 0 <= i < |s| && !IsDigit(s[i]) then None else Some(Decimal(s))
  }

  function Decimal(s: string): nat
    requires forall i :: 0 <= i < |s| ==> IsDigit(s[i])
  {
    if s == [] then 0 else
      assert IsDigit(s[|s| - 1]);
      10 * Decimal(s[..|s| - 1]) + (s[|s| - 1] as int - '0' as int)
  }

  /** The digit branch: start afresh when the previous digit is stale, append, and tune at three digits. */
  function EnterDigit(tv: Tv, digit: nat, now: real): Tv
    requires digit <= 9
  {
    var stale := tv.inputTime.None? || now - tv.inputTime.value > CHANNEL_INPUT_TIMEOUT_SEC;
    var input := (if stale then "" else tv.input) + Text(digit);
    if |input| < 3 then tv.(input := input, inputTime := Some(now))
    else
      var parsed := ParseInt(input);
      var channel := if parsed.Some? && 0 <= parsed.value <= 999 then parsed.value else tv.channel;
      tv.(channel := channel, input := "", inputTime := Some(now))
  }

  function Handle(tv: Tv, p: Press): Tv
    requires Legal(p)
  {
    match p
    case Power => tv.(poweredOn := !tv.poweredOn)
    case ChannelUp => if tv.poweredOn then tv.(channel := Up(tv.channel)) else tv
    case ChannelDown => if tv.poweredOn then tv.(channel := Down(tv.channel)) else tv
    case Digit(d, now) => if tv.poweredOn then EnterDigit(tv, d, now) else tv
  }

  /** The part of the server's shared state that the channel buttons read and update. */
  class TvState {
    var poweredOn: bool
    var channel: int
    var channelInput: string
    var channelInputTime: Option<real>

    ghost function State(): Tv
      reads this
    {
      Tv(poweredOn, channel, channelInput, channelInputTime)
    }

    constructor ()
      ensures State() == START
    {
      poweredOn, channel, channelInput, channelInputTime := false, 1, "", None;
    }

    method HandleButtonPress(p: Press)
      requires Legal(p)
      modifies this
      ensures State() == Handle(old(State()), p)
    {
      match p
      case Power =>
        poweredOn := !poweredOn;
      case ChannelUp =>
        if poweredOn {
          channel := channel % 999 + 1;
        }
      case ChannelDown =>
        if poweredOn {
          channel := (channel - 2) % 999 + 1;
        }
      case Digit(digit, now) =>
        if poweredOn {
          var last := channelInputTime;
          if last.None? || now - last.value > CHANNEL_INPUT_TIMEOUT_SEC {
            channelInput := "";
          }
          channelInput := channelInput + Text(digit);
          channelInputTime := Some(now);
          if |channelInput| >= 3 {
            var parsed := ParseInt(channelInput);
            if parsed.Some? {
              if 0 <= parsed.value <= 999 {
                channel := parsed.value;
              }
              channelInput := "";
            } else {
              channelInput := "";
            }
          }
        }
    }
  }

  // ---- whole runs -----------------------------------------------------------------------

  ghost predicate AllLegal(ps: seq<Press>) {
    forall i :: 0 <= i < |ps| ==> Legal(ps[i])
  }

  ghost function Run(ps: seq<Press>): Tv
    requires AllLegal(ps)
  {
    if ps == [] then START else Handle(Run(ps[..|ps| - 1]), ps[|ps| - 1])
  }

  /** The server handling a run of presses. */
  method HandleAll(tv: TvState, ps: seq<Press>)
    requires AllLegal(ps) && tv.State() == START
    modifies tv
    ensures tv.State() == Run(ps)
  {
    for i := 0 to |ps|
      invariant tv.State() == Run(ps[..i])
    {
      assert ps[..i + 1][..i] == ps[..i];
      tv.HandleButtonPress(ps[i]);
    }
    assert ps[..|ps|] == ps;
  }

  /** On after an odd number of power presses. */
  ghost predicate On(ps: seq<Press>) {
    ps != [] && (On(ps[..|ps| - 1]) != ps[|ps| - 1].Power?)
  }

  /** The digit presses that found the TV on. */
  ghost function Accepted(ps: seq<Press>): seq<Press> {
    if ps == [] then []
    else
      var last := ps[|ps| - 1];
      Accepted(ps[..|ps| - 1]) + if last.Digit? && On(ps[..|ps| - 1]) then [last] else []
  }

  ghost predicate Digits(ds: seq<Press>) {
    forall i :: 0 <= i < |ds| ==> ds[i].Digit? && ds[i].digit <= 9
  }

  /** The length of the current burst: the presses since the last gap longer than the timeout. */
  ghost function Burst(ds: seq<Press>): (k: nat)
    requires Digits(ds)
    ensures k <= |ds|
  {
    var n := |ds|;
    if n <= 1 then n
    else if ds[n - 1].now - ds[n - 2].now > CHANNEL_INPUT_TIMEOUT_SEC then 1
    else Burst(ds[..n - 1]) + 1
  }

  /** The burst is the longest tail of presses whose gaps are all within the timeout. */
  lemma {:induction false} BurstIsMaximal(ds: seq<Press>)
    requires Digits(ds)
    ensures var from := |ds| - Burst(ds);
            && (ds != [] ==> from < |ds|)
            && (forall i :: from < i < |ds| ==> ds[i].now - ds[i - 1].now <= 2.0)
            && (from > 0 ==> ds[from].now - ds[from - 1].now > 2.0)
  {
    var n := |ds|;
    if n > 1 && ds[n - 1].now - ds[n - 2].now <= CHANNEL_INPUT_TIMEOUT_SEC {
      BurstIsMaximal(ds[..n - 1]);
    }
  }

  /** The text of a list of digit presses. */
  ghost function Typed(ds: seq<Press>): string
    requires Digits(ds)
  {
    if ds == [] then "" else Typed(ds[..|ds| - 1]) + Text(ds[|ds| - 1].digit)
  }

  lemma {:induction false} AcceptedAreDigits(ps: seq<Press>)
    requires AllLegal(ps)
    ensures Digits(Accepted(ps))
    ensures Run(ps).poweredOn == On(ps)
  {
    if ps != [] {
      AcceptedAreDigits(ps[..|ps| - 1]);
    }
  }

  lemma TextIsDigit(digit: nat)
    requires digit <= 9
    ensures IsDigit(Text(digit)[0]) && Text(digit)[0] as int - '0' as int == digit
  {
    if digit == 0 {
    } else if digit == 1 {
    } else if digit == 2 {
    } else if digit == 3 {
    } else if digit == 4 {
    } else if digit == 5 {
    } else if digit == 6 {
    } else if digit == 7 {
    } else if digit == 8 {
    } else {
    }
  }

  lemma ThreeDigits(a: nat, b: nat, c: nat)
    requires a <= 9 && b <= 9 && c <= 9
    ensures ParseInt(Text(a) + Text(b) + Text(c)) == Some(100 * a + 10 * b + c)
  {
    TextIsDigit(a);
    TextIsDigit(b);
    TextIsDigit(c);
    var s := Text(a) + Text(b) + Text(c);
    assert s[..2] == Text(a) + Text(b);
    assert s[..2][..1] == Text(a);
    assert s[..2][..1][..0] == [];
    assert Decimal(Text(a)) == a;
    assert Decimal(s[..2]) == 10 * a + b;
  }

  lemma TypedOf(ds: seq<Press>)
    requires Digits(ds)
    requires |ds| <= 3
    ensures |ds| == 0 ==> Typed(ds) == ""
    ensures |ds| == 1 ==> Typed(ds) == Text(ds[0].digit)
    ensures |ds| == 2 ==> Typed(ds) == Text(ds[0].digit) + Text(ds[1].digit)
    ensures |ds| == 3 ==> Typed(ds) == Text(ds[0].digit) + Text(ds[1].digit) + Text(ds[2].digit)
    ensures |Typed(ds)| == |ds|
  {
    if |ds| > 0 {
      TypedOf(ds[..|ds| - 1]);
    }
  }

  /** What a run leaves pending: the last k mod 3 digits of the current burst of k, timed by the last digit. */
  ghost predicate Pending(tv: Tv, ds: seq<Press>)
    requires Digits(ds)
  {
    && tv.input == Typed(ds[|ds| - Burst(ds) % 3..])
    && tv.inputTime == if ds == [] then None else Some(ds[|ds| - 1].now)
  }

  /** The burst after one more digit. */
  lemma BurstSnoc(ds: seq<Press>, d: Press)
    requires Digits(ds) && d.Digit? && d.digit <= 9
    ensures Burst(ds + [d]) ==
      if ds == [] || d.now - ds[|ds| - 1].now > CHANNEL_INPUT_TIMEOUT_SEC then 1 else Burst(ds) + 1
    ensures ds != [] ==> Burst(ds) > 0
  {
    assert (ds + [d])[..|ds|] == ds;
  }

  /** Entering a digit on top of the kept ones. */
  lemma EnterOnto(tv: Tv, kept: seq<Press>, d: Press)
    requires |kept| <= 2
    requires Digits(kept)
    requires d.Digit? && d.digit <= 9
    requires var stale := tv.inputTime.None? || d.now - tv.inputTime.value > CHANNEL_INPUT_TIMEOUT_SEC;
             Typed(kept) == if stale then "" else tv.input
    ensures var after := EnterDigit(tv, d.digit, d.now);
            && after.inputTime == Some(d.now)
            && after.input == (if |kept| == 2 then "" else Typed(kept + [d]))
            && after.channel == if |kept| == 2 then 100 * kept[0].digit + 10 * kept[1].digit + d.digit else tv.channel
  {
    hide ParseInt, Text;
    assert (kept + [d])[..|kept|] == kept;
    TypedOf(kept);
    if |kept| == 2 {
      ThreeDigits(kept[0].digit, kept[1].digit, d.digit);
    }
  }

  /** One more accepted digit keeps exactly the burst's pending digits, and tunes at every third. */
  lemma DigitStep(tv: Tv, ds: seq<Press>, d: Press)
    requires Digits(ds)
    requires d.Digit? && d.digit <= 9 && Pending(tv, ds)
    ensures Pending(EnterDigit(tv, d.digit, d.now), ds + [d])
    ensures var all := ds + [d];
            var n, k := |all|, Burst(all);
            EnterDigit(tv, d.digit, d.now).channel ==
              if k % 3 != 0 then tv.channel
              else 100 * all[n - 3].digit + 10 * all[n - 2].digit + all[n - 1].digit
  {
    hide EnterDigit, Burst, Typed, Text;
    var all, n := ds + [d], |ds| + 1;
    BurstSnoc(ds, d);
    var stale := ds == [] || d.now - ds[|ds| - 1].now > CHANNEL_INPUT_TIMEOUT_SEC;
    var kept := if stale then [] else ds[|ds| - Burst(ds) % 3..];
    TypedOf([]);
    EnterOnto(tv, kept, d);
    var m := |kept| + 1;
    assert kept + [d] == all[n - m..];
    assert m == if Burst(all) % 3 == 0 then 3 else Burst(all) % 3;
    if m == 3 {
      assert all[n..] == [];
      assert all[n - 3] == kept[0] && all[n - 2] == kept[1];
    }
  }

  lemma NothingPending()
    ensures Pending(START, [])
  {
  }

  /** Over any run, the pending input is the tail of the current burst of accepted digits. */
  lemma {:induction false} InputIsBurstTail(ps: seq<Press>)
    requires AllLegal(ps)
    ensures Digits(Accepted(ps))
    ensures Pending(Run(ps), Accepted(ps))
  {
    hide EnterDigit, Burst, Typed, Text, On;
    AcceptedAreDigits(ps);
    if ps == [] {
      NothingPending();
    } else {
      var init, last := ps[..|ps| - 1], ps[|ps| - 1];
      InputIsBurstTail(init);
      AcceptedAreDigits(init);
      if last.Digit? && On(init) {
        DigitStep(Run(init), Accepted(init), last);
      } else {
        assert Accepted(ps) == Accepted(init);
      }
    }
  }

  /** Every third digit of a burst tunes to the three digits read as a number; no other digit changes the
    * channel. */
  lemma EveryThirdDigitTunes(ps: seq<Press>, d: Press)
    requires AllLegal(ps) && d.Digit? && d.digit <= 9 && On(ps)
    ensures AllLegal(ps + [d])
    ensures Digits(Accepted(ps + [d]))
    ensures var ds := Accepted(ps + [d]);
            Run(ps + [d]).channel ==
              if Burst(ds) % 3 != 0 then Run(ps).channel
              else 100 * ds[|ds| - 3].digit + 10 * ds[|ds| - 2].digit + ds[|ds| - 1].digit
  {
    hide EnterDigit, Burst, Typed, Text;
    assert (ps + [d])[..|ps|] == ps;
    InputIsBurstTail(ps);
    AcceptedAreDigits(ps);
    AcceptedAreDigits(ps + [d]);
    DigitStep(Run(ps), Accepted(ps), d);
    assert Accepted(ps + [d]) == Accepted(ps) + [d];
    assert Run(ps + [d]) == EnterDigit(Run(ps), d.digit, d.now);
  }

  /** The channel never leaves 0..999. */
  lemma {:induction false} ChannelInRange(ps: seq<Press>)
    requires AllLegal(ps)
    ensures 0 <= Run(ps).channel <= 999
  {
    if ps != [] {
      ChannelInRange(ps[..|ps| - 1]);
    }
  }

  // ---- channel up and down --------------------------------------------------------------

  /** Up and down undo each other exactly on the channels other than 0. */
  lemma UpAndDownAreInverse(channel: int)
    requires 0 <= channel <= 999
    ensures Down(Up(channel)) == channel <==> channel != 0
    ensures Up(Down(channel)) == channel <==> channel != 0
  {
  }

  /** Channel 0 is reached by typing three zeros, and from there neither undoes the other. */
  lemma ZeroIsReached(t: real)
    ensures var ps := [Power, Digit(0, t), Digit(0, t), Digit(0, t)];
            AllLegal(ps) && Run(ps).channel == 0
    ensures Down(Up(0)) == 999 && Up(Down(0)) == 999 && Down(0) == 998
  {
    hide Burst;
    var z := Digit(0, t);
    var one, two, three := [Power], [Power, z], [Power, z, z];
    var ps := [Power, z, z, z];
    assert one[..0] == [];
    assert two[..1] == one;
    assert three[..2] == two;
    assert ps[..3] == three;
    assert Run(one) == Tv(true, 1, "", None);
    assert Run(two) == Tv(true, 1, Text(0), Some(t));
    assert Run(three) == Tv(true, 1, Text(0) + Text(0), Some(t));
    ThreeDigits(0, 0, 0);
    assert Run(ps) == EnterDigit(Run(three), 0, t);
  }

  ghost function UpTimes(channel: int, n: nat): int {
    if n == 0 then channel else Up(UpTimes(channel, n - 1))
  }

  ghost function DownTimes(channel: int, n: nat): int {
    if n == 0 then channel else Down(DownTimes(channel, n - 1))
  }

  lemma UpStep(x: int)
    ensures Up(x % 999 + 1) == (x + 1) % 999 + 1
  {
  }

  lemma DownStep(x: int)
    ensures Down(x % 999 + 1) == (x - 1) % 999 + 1
  {
  }

  lemma FullCycle(c: int, n: int)
    requires 0 <= c < 999
    ensures (c + n) % 999 == c <==> n % 999 == 0
    ensures (c - n) % 999 == c <==> n % 999 == 0
  {
    var q, r := n / 999, n % 999;
    assert n == 999 * q + r;
    ModShift(c + r, q);
    ModShift(c - r, -q);
  }

  lemma ModShift(x: int, q: int)
    ensures (x + 999 * q) % 999 == x % 999
  {
  }

  /** On 1..999 both cycle through all 999 channels: they return to where they started exactly after a
    * multiple of 999 presses. */
  lemma {:induction false} CycleOf999(channel: int, n: nat)
    requires 1 <= channel <= 999
    ensures UpTimes(channel, n) == (channel - 1 + n) % 999 + 1
    ensures DownTimes(channel, n) == (channel - 1 - n) % 999 + 1
    ensures UpTimes(channel, n) == channel <==> n % 999 == 0
    ensures DownTimes(channel, n) == channel <==> n % 999 == 0
  {
    hide Up, Down;
    if n > 0 {
      CycleOf999(channel, n - 1);
      UpStep(channel - 1 + n - 1);
      DownStep(channel - 1 - n + 1);
    }
    FullCycle(channel - 1, n);
  }

  // ---- channel presses in a run ---------------------------------------------------------

  lemma AllLegalSnoc(ps: seq<Press>, p: Press)
    requires AllLegal(ps) && Legal(p)
    ensures AllLegal(ps + [p]) && Run(ps + [p]) == Handle(Run(ps), p)
    ensures On(ps + [p]) == (On(ps) != p.Power?)
  {
    assert (ps + [p])[..|ps|] == ps;
  }

  /** While the TV is off every press but power is ignored; power only switches. */
  lemma OffIgnores(ps: seq<Press>, p: Press)
    requires AllLegal(ps) && Legal(p)
    ensures AllLegal(ps + [p])
    ensures p.Power? ==> Run(ps + [p]) == Run(ps).(poweredOn := !On(ps))
    ensures !On(ps) && !p.Power? ==> Run(ps + [p]) == Run(ps)
  {
    hide EnterDigit, Run, On;
    AllLegalSnoc(ps, p);
    AcceptedAreDigits(ps);
  }

  /** After any run that leaves the TV on, channel up and channel down step around 1..999 and change nothing else; after
    * one that leaves it off they change nothing. */
  lemma ChannelPresses(ps: seq<Press>)
    requires AllLegal(ps)
    ensures AllLegal(ps + [ChannelUp]) && AllLegal(ps + [ChannelDown])
    ensures On(ps + [ChannelUp]) == On(ps) && On(ps + [ChannelDown]) == On(ps)
    ensures var c := Run(ps).channel;
            && Run(ps + [ChannelUp]) == Run(ps).(channel := if On(ps) then c % 999 + 1 else c)
            && Run(ps + [ChannelDown]) == Run(ps).(channel := if On(ps) then (c - 2) % 999 + 1 else c)
  {
    hide *;
    AllLegalSnoc(ps, ChannelUp);
    AllLegalSnoc(ps, ChannelDown);
    AcceptedAreDigits(ps);
    ChannelHandled(Run(ps));
  }

  lemma ChannelHandled(tv: Tv)
    ensures Legal(ChannelUp) && Legal(ChannelDown)
    ensures Handle(tv, ChannelUp) == tv.(channel := if tv.poweredOn then tv.channel % 999 + 1 else tv.channel)
    ensures Handle(tv, ChannelDown) == tv.(channel := if tv.poweredOn then (tv.channel - 2) % 999 + 1 else tv.channel)
  {
  }

  /** Pressed one after the other on a TV that is on, up and down restore the channel if and only if it was not 0. */
  lemma OppositePresses(ps: seq<Press>)
    requires AllLegal(ps) && On(ps)
    ensures AllLegal(ps + [ChannelUp] + [ChannelDown]) && AllLegal(ps + [ChannelDown] + [ChannelUp])
    ensures Run(ps + [ChannelUp] + [ChannelDown]).channel == Run(ps).channel <==> Run(ps).channel != 0
    ensures Run(ps + [ChannelDown] + [ChannelUp]).channel == Run(ps).channel <==> Run(ps).channel != 0
  {
    hide EnterDigit, Run, On;
    ChannelInRange(ps);
    ChannelPresses(ps);
    AllLegalSnoc(ps, ChannelUp);
    AllLegalSnoc(ps, ChannelDown);
    ChannelPresses(ps + [ChannelUp]);
    ChannelPresses(ps + [ChannelDown]);
    UpAndDownAreInverse(Run(ps).channel);
  }

  /** The same press `n` times. */
  ghost function Again(p: Press, n: nat): seq<Press> {
    if n == 0 then [] else Again(p, n - 1) + [p]
  }

  lemma {:induction false} PressesUp(ps: seq<Press>, n: nat)
    requires AllLegal(ps) && On(ps)
    ensures AllLegal(ps + Again(ChannelUp, n)) && On(ps + Again(ChannelUp, n))
    ensures Run(ps + Again(ChannelUp, n)).channel == UpTimes(Run(ps).channel, n)
  {
    hide EnterDigit, Run, On, AllLegal, Up, Down;
    if n == 0 {
      assert ps + Again(ChannelUp, 0) == ps;
    } else {
      var before := ps + Again(ChannelUp, n - 1);
      PressesUp(ps, n - 1);
      AllLegalSnoc(before, ChannelUp);
      AcceptedAreDigits(before);
      assert ps + Again(ChannelUp, n) == before + [ChannelUp];
    }
  }

  lemma {:induction false} PressesDown(ps: seq<Press>, n: nat)
    requires AllLegal(ps) && On(ps)
    ensures AllLegal(ps + Again(ChannelDown, n)) && On(ps + Again(ChannelDown, n))
    ensures Run(ps + Again(ChannelDown, n)).channel == DownTimes(Run(ps).channel, n)
  {
    hide EnterDigit, Run, On, AllLegal, Up, Down;
    if n == 0 {
      assert ps + Again(ChannelDown, 0) == ps;
    } else {
      var before := ps + Again(ChannelDown, n - 1);
      PressesDown(ps, n - 1);
      AllLegalSnoc(before, ChannelDown);
      AcceptedAreDigits(before);
      assert ps + Again(ChannelDown, n) == before + [ChannelDown];
    }
  }

  /** From a channel in 1..999, n presses of channel up on a TV that is on go n channels up around the 999, and n presses
    * of channel down go n down. */
  lemma RepeatedPresses(ps: seq<Press>, n: nat)
    requires AllLegal(ps) && On(ps) && 1 <= Run(ps).channel <= 999
    ensures AllLegal(ps + Again(ChannelUp, n)) && AllLegal(ps + Again(ChannelDown, n))
    ensures Run(ps + Again(ChannelUp, n)).channel == (Run(ps).channel - 1 + n) % 999 + 1
    ensures Run(ps + Again(ChannelDown, n)).channel == (Run(ps).channel - 1 - n) % 999 + 1
  {
    hide *;
    PressesUp(ps, n);
    PressesDown(ps, n);
    CycleOf999(Run(ps).channel, n);
  }
}
