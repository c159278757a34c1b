/** The transmitter: a LED level and an optional trace hook, changed by every call, and the senders
  * and capture harness built on them. */
module IrEmitter {
  import opened Arithmetic
  import opened Bits
  import opened IrWave
  import opened IrHalves
  import opened IrRc5
  import opened IrRc6
  import opened IrNec
  import opened IrCarries

  /** The capture buffer behind the trace hook. */
  class Recorder {
    const segs: array<Segment>
    var count: nat
    var overflow: bool

    ghost predicate Valid()
      reads this
    {
      segs.Length == MAX_SEGMENTS && count <= MAX_SEGMENTS
    }

    ghost function Captured(): Tape
      reads this, segs
      requires Valid()
    {
      Tape(segs[..count], overflow)
    }

    constructor ()
      ensures Valid() && fresh(segs) && Captured() == BLANK
    {
      segs := new Segment[MAX_SEGMENTS](_ => Segment(false, 0));
      count, overflow := 0, false;
    }

    /** One delay reported to the buffer. */
    method TraceHook(level: bool, us: nat)
      requires Valid() && us < UINT32_SPAN
      modifies this`count, this`overflow, segs
      ensures Valid() && Captured() == Record(old(Captured()), Segment(level, us))
    {
      ghost var was := Captured();
      if count > 0 && segs[count - 1].level == level {
        segs[count - 1] := Segment(level, Wrap32(segs[count - 1].us + us));
        assert segs[..count] == was.segs[..count - 1] + [segs[count - 1]];
        return;
      }
      if count >= MAX_SEGMENTS {
        overflow := true;
        return;
      }
      segs[count] := Segment(level, us);
      count := count + 1;
      assert segs[..count] == was.segs + [Segment(level, us)];
    }

    method Clear()
      requires Valid()
      modifies this`count, this`overflow
      ensures Valid() && Captured() == BLANK
    {
      count, overflow := 0, false;
    }
  }

  datatype Protocol = Nec | Rc5 | Rc6 | Phillips | Unsupported

  datatype IrCode = IrCode(code: nat, protocol: Protocol, repeatCount: nat)

  /** One transmission's delays. */
  function Frame(c: IrCode): seq<Segment>
    requires !c.protocol.Unsupported?
  {
    match c.protocol
    case Nec => NecFrame(c.code)
    case Rc5 => Rc5Frame(CodeToRc5(c.code))
    case Rc6 => Rc6Frame(CodeToRc6(c.code))
    case Phillips => Rc5Frame(CodeToRc5(c.code))
  }

  function Gap(c: IrCode): Segment {
    Segment(false, if c.protocol.Rc6? then RC6_REPEAT_DELAY else RC5_REPEAT_DELAY)
  }

  /** Transmissions `i .. n-1`, with a gap between two transmissions. */
  function Transmissions(c: IrCode, i: nat, n: nat): seq<Segment>
    requires !c.protocol.Unsupported?
    decreases n - i
  {
    if i >= n then []
    else Frame(c) + (if i < n - 1 then [Gap(c)] else []) + Transmissions(c, i + 1, n)
  }

  /** What one `ir_send` call emits. */
  function SendWaveform(c: IrCode): seq<Segment> {
    if c.code == 0 || c.protocol.Unsupported? then []
    else Transmissions(c, 0, if c.repeatCount > 0 then c.repeatCount else 1)
  }

  function FrameUs(c: IrCode): nat {
    match c.protocol
    case Nec => 49900 + 1130 * PopCount(c.code, 32)
    case Rc5 => 24892
    case Rc6 => 22203
    case Phillips => 24892
    case Unsupported => 0
  }

  lemma {:induction false} TransmissionsAirtime(c: IrCode, i: nat, n: nat)
    requires !c.protocol.Unsupported? && i < n
    ensures TotalUs(Transmissions(c, i, n)) == (n - i) * FrameUs(c) + (n - i - 1) * Gap(c).us
    decreases n - i
  {
    hide PopCount, Rc5Frame, Rc6Frame, NecFrame, CodeToRc5, CodeToRc6, TotalUs;
    var rest := Transmissions(c, i + 1, n);
    var gap := if i < n - 1 then [Gap(c)] else [];
    FrameAirtime(c.code);
    FrameAirtime(CodeToRc5(c.code));
    FrameAirtime(CodeToRc6(c.code));
    TotalUsConcat(Frame(c), gap);
    TotalUsConcat(Frame(c) + gap, rest);
    TotalUsOfOne(Gap(c));
    if i + 1 < n {
      TransmissionsAirtime(c, i + 1, n);
      OneMore(n - i - 1, FrameUs(c));
      OneMore(n - i - 2, Gap(c).us);
    }
  }

  lemma OneMore(k: nat, x: nat)
    ensures (k + 1) * x == k * x + x
  {
  }

  /** `ir_send` with repeat count r transmits max(r, 1) frames and one gap fewer. */
  lemma SendAirtime(c: IrCode)
    requires c.code != 0 && !c.protocol.Unsupported?
    ensures var r := if c.repeatCount > 0 then c.repeatCount else 1;
            TotalUs(SendWaveform(c)) == r * FrameUs(c) + (r - 1) * Gap(c).us
  {
    TransmissionsAirtime(c, 0, if c.repeatCount > 0 then c.repeatCount else 1);
  }

  function Repeats(c: IrCode): (r: nat)
    ensures r >= 1
  {
    if c.repeatCount > 0 then c.repeatCount else 1
  }

  function Times(k: nat, m: nat): nat {
    k * m
  }

  /** The frame lies at this place of the delays. */
  predicate FrameAt(ds: seq<Segment>, at: nat, frame: seq<Segment>) {
    at + |frame| <= |ds| && ds[at..at + |frame|] == frame
  }

  predicate DelayAt(ds: seq<Segment>, at: nat, d: Segment) {
    at < |ds| && ds[at] == d
  }

  lemma Behind(head: seq<Segment>, rest: seq<Segment>, at: nat, frame: seq<Segment>, d: Segment)
    ensures FrameAt(rest, at, frame) ==> FrameAt(head + rest, |head| + at, frame)
    ensures DelayAt(rest, at, d) ==> DelayAt(head + rest, |head| + at, d)
  {
    if FrameAt(rest, at, frame) {
      assert (head + rest)[|head| + at..|head| + at + |frame|] == rest[at..at + |frame|];
    }
  }

  lemma InFront(frame: seq<Segment>, gap: Segment, rest: seq<Segment>)
    ensures FrameAt(frame + [gap] + rest, 0, frame) && DelayAt(frame + [gap] + rest, |frame|, gap)
  {
  }

  lemma TimesMore(k: nat, m: nat)
    ensures Times(k + 1, m) == Times(k, m) + m && Times(0, m) == 0 && Times(1, m) == m
  {
  }

  lemma {:induction false} TransmissionsAre(c: IrCode, i: nat, n: nat, k: nat)
    requires !c.protocol.Unsupported? && i < n && k < n - i
    ensures var ds, m := Transmissions(c, i, n), |Frame(c)| + 1;
            && |ds| + 1 == Times(n - i, m) && FrameAt(ds, Times(k, m), Frame(c))
            && (k < n - i - 1 ==> DelayAt(ds, Times(k, m) + m - 1, Gap(c)))
    decreases n - i
  {
    hide Frame, Gap, Times, FrameAt, DelayAt;
    var ds, frame := Transmissions(c, i, n), Frame(c);
    var m := |frame| + 1;
    TimesMore(0, m);
    if i == n - 1 {
      assert Transmissions(c, i + 1, n) == [];
      assert ds == frame + [] + [];
      assert ds == frame;
      WholeFrame(frame);
    } else {
      var rest := Transmissions(c, i + 1, n);
      assert ds == frame + [Gap(c)] + rest;
      TransmissionsAre(c, i + 1, n, if k > 0 then k - 1 else 0);
      TimesMore(n - i - 1, m);
      if k > 0 {
        TimesMore(k - 1, m);
        Behind(frame + [Gap(c)], rest, Times(k - 1, m), frame, Gap(c));
        Behind(frame + [Gap(c)], rest, Times(k - 1, m) + m - 1, frame, Gap(c));
      } else {
        InFront(frame, Gap(c), rest);
      }
    }
  }

  lemma WholeFrame(frame: seq<Segment>)
    ensures FrameAt(frame, 0, frame)
  {
  }

  /** What `ir_send` puts on the air: as many frames as the code has repeats, at least one, with one low gap between
    * neighbours, 108 ms for RC6 and 114 ms otherwise, and nothing else. */
  lemma SendIsFrames(c: IrCode, k: nat)
    requires c.code != 0 && !c.protocol.Unsupported? && k < Repeats(c)
    ensures Repeats(c) == if c.repeatCount == 0 then 1 else c.repeatCount
    ensures var ds, m := SendWaveform(c), |Frame(c)| + 1;
            && |ds| + 1 == Times(Repeats(c), m) && FrameAt(ds, Times(k, m), Frame(c))
            && (k + 1 < Repeats(c) ==>
                  DelayAt(ds, Times(k, m) + m - 1, Segment(false, if c.protocol.Rc6? then 108000 else 114000)))
  {
    hide Frame, Times, FrameAt, DelayAt;
    TransmissionsAre(c, 0, Repeats(c), k);
  }

  /** The frame of a code: NEC sends the code itself; RC5, also for the Phillips protocol, and RC6 send the word laid out
    * for them. */
  lemma FrameIs(c: IrCode)
    requires !c.protocol.Unsupported?
    ensures c.protocol.Nec? ==> Frame(c) == NecFrame(c.code)
    ensures c.protocol.Rc5? || c.protocol.Phillips? ==>
              Frame(c) == Rc5Frame(0x3000 + 0x800 * (c.code / 0x8000_0000 % 2) + 0x40 * (c.code / 0x800 % 0x20) + c.code % 0x40)
    ensures c.protocol.Rc6? ==>
              Frame(c) == Rc6Frame(0x8_0000 + 0x1_0000 * (c.code / 0x1_0000 % 8) + 0x8000 * (c.code / 0x8000_0000 % 2)
                                   + 0x80 * (c.code / 0x100 % 0x100) + c.code % 0x80)
  {
    hide NecFrame, Rc5Frame, Rc6Frame, CodeToRc5, CodeToRc6;
    Rc5WordIs(c.code);
    Rc6WordIs(c.code);
  }

  lemma SendOnce(c: IrCode)
    requires c.code != 0 && !c.protocol.Unsupported? && c.repeatCount <= 1
    ensures SendWaveform(c) == Frame(c)
  {
    hide Frame;
    assert Transmissions(c, 0, 1) == Frame(c) + [] + [];
  }

  /** What the trace hook captures of one `ir_send` lasts as long, whenever its runs of equal level fit the
    * buffer. */
  lemma CapturedAirtime(c: IrCode)
    requires c.code != 0 && !c.protocol.Unsupported?
    requires Runs([], SendWaveform(c)) <= MAX_SEGMENTS && TotalUs(SendWaveform(c)) < UINT32_SPAN
    ensures var r := if c.repeatCount > 0 then c.repeatCount else 1;
            TotalUs(RecordAll(BLANK, SendWaveform(c)).segs) == r * FrameUs(c) + (r - 1) * Gap(c).us
  {
    hide SendWaveform, FrameUs, Gap, RecordAll, Runs;
    TotalUsOfOne(Gap(c));
    FitsByRuns(BLANK, SendWaveform(c));
    CaptureConservesTime(BLANK, SendWaveform(c));
    SendAirtime(c);
  }

  /** The waveform asked of the LED so far, and what the hook has captured of it. */
  datatype Output = Output(asked: seq<Segment>, tape: Tape)

  /** The output after more delays, captured only when a hook is installed. */
  function After(o: Output, hooked: bool, ds: seq<Segment>): Output {
    Output(o.asked + ds, if hooked then RecordAll(o.tape, ds) else o.tape)
  }

  lemma AfterAfter(o: Output, hooked: bool, a: seq<Segment>, b: seq<Segment>)
    ensures After(After(o, hooked, a), hooked, b) == After(o, hooked, a + b)
  {
    hide RecordAll;
    RecordAllConcat(o.tape, a, b);
    ConcatAssoc(o.asked, a, b);
  }

  lemma AfterNothing(o: Output, hooked: bool)
    ensures After(o, hooked, []) == o
  {
  }

  lemma RecordAllOfOne(t: Tape, d: Segment)
    ensures RecordAll(t, [d]) == Record(t, d)
  {
    assert [d][1..] == [];
  }

  class Emitter {
    var level: bool
    var hook: Recorder?
    var initialized: bool
    ghost var asked: seq<Segment>

    ghost predicate Valid()
      reads this, hook
    {
      hook != null ==> hook.Valid()
    }

    /** What a delay may change: nothing of the emitter itself but its history. */
    ghost function Footprint(): set<object>
      reads this
    {
      if hook == null then {this} else {this, hook, hook.segs}
    }

    ghost function Out(): Output
      reads this, hook, if hook == null then {} else {hook.segs}
      requires Valid()
    {
      Output(asked, if hook == null then BLANK else hook.Captured())
    }

    constructor ()
      ensures Valid() && hook == null && !level && !initialized && asked == []
    {
      level, hook, initialized, asked := false, null, false, [];
    }

    /** `ir_init`: nothing that can fail stops it. */
    method Init()
      modifies this`initialized
      ensures initialized
    {
      initialized := true;
    }

    method LedOn()
      modifies this`level
      ensures level
    {
      level := true;
    }

    method LedOff()
      modifies this`level
      ensures !level
    {
      level := false;
    }

    /** Report the delay to the hook when there is one; otherwise it is slept. */
    method DelayUs(us: nat)
      requires Valid() && us < UINT32_SPAN
      modifies Footprint()
      ensures Valid() && hook == old(hook) && level == old(level) && initialized == old(initialized)
      ensures Out() == After(old(Out()), hook != null, [Segment(level, us)])
    {
      RecordAllOfOne(Out().tape, Segment(level, us));
      if hook != null {
        hook.TraceHook(level, us);
      }
      asked := asked + [Segment(level, us)];
    }

    /** Set the level, then hold it: the step every sender is made of. */
    method Hold(on: bool, us: nat)
      requires Valid() && us < UINT32_SPAN
      modifies Footprint()
      ensures Valid() && hook == old(hook) && level == on && initialized == old(initialized)
      ensures Out() == After(old(Out()), hook != null, [Segment(on, us)])
    {
      if on {
        LedOn();
      } else {
        LedOff();
      }
      DelayUs(us);
    }

    method HoldTwo(first: bool, x: nat, second: bool, y: nat)
      requires Valid() && x < UINT32_SPAN && y < UINT32_SPAN
      modifies Footprint()
      ensures Valid() && hook == old(hook) && level == second && initialized == old(initialized)
      ensures Out() == After(old(Out()), hook != null, [Segment(first, x), Segment(second, y)])
    {
      ghost var o := Out();
      Hold(first, x);
      Hold(second, y);
      AfterAfter(o, hook != null, [Segment(first, x)], [Segment(second, y)]);
      assert [Segment(first, x)] + [Segment(second, y)] == [Segment(first, x), Segment(second, y)];
    }

    method SendRc5Bit(bit: bool)
      requires Valid()
      modifies Footprint()
      ensures Valid() && hook == old(hook) && initialized == old(initialized)
      ensures Out() == After(old(Out()), hook != null, Rc5Bit(bit))
    {
      if bit {
        HoldTwo(false, RC5_BIT_TIME, true, RC5_BIT_TIME);
      } else {
        HoldTwo(true, RC5_BIT_TIME, false, RC5_BIT_TIME);
      }
    }

    method SendRc6Bit(bit: bool)
      requires Valid()
      modifies Footprint()
      ensures Valid() && hook == old(hook) && initialized == old(initialized)
      ensures Out() == After(old(Out()), hook != null, Rc6Bit(bit, 1))
    {
      if bit {
        HoldTwo(true, RC6_BIT_TIME, false, RC6_BIT_TIME);
      } else {
        HoldTwo(false, RC6_BIT_TIME, true, RC6_BIT_TIME);
      }
    }

    method SendRc6TrailerBit(bit: bool)
      requires Valid()
      modifies Footprint()
      ensures Valid() && hook == old(hook) && initialized == old(initialized)
      ensures Out() == After(old(Out()), hook != null, Rc6Bit(bit, 2))
    {
      if bit {
        HoldTwo(true, 2 * RC6_BIT_TIME, false, 2 * RC6_BIT_TIME);
      } else {
        HoldTwo(false, 2 * RC6_BIT_TIME, true, 2 * RC6_BIT_TIME);
      }
    }

    method SendNecBit(bit: bool)
      requires Valid()
      modifies Footprint()
      ensures Valid() && hook == old(hook) && initialized == old(initialized)
      ensures Out() == After(old(Out()), hook != null, NecBit(bit))
    {
      if bit {
        HoldTwo(true, 560, false, 1690);
      } else {
        HoldTwo(true, 560, false, 560);
      }
    }

    method SendRc5(code: nat)
      requires Valid()
      modifies Footprint()
      ensures Valid() && hook == old(hook) && !level && initialized == old(initialized)
      ensures Out() == After(old(Out()), hook != null, Rc5Frame(code))
    {
      ghost var all := After(Out(), hook != null, Rc5Frame(code));
      for i := 14 downto 0
        invariant Valid() && hook == old(hook) && initialized == old(initialized)
        invariant After(Out(), hook != null, Rc5Bits(code, i)) == all
      {
        ghost var o := Out();
        SendRc5Bit(Bit(code, i));
        AfterAfter(o, hook != null, Rc5Bit(Bit(code, i)), Rc5Bits(code, i));
      }
      AfterNothing(Out(), hook != null);
      LedOff();
    }

    method SendRc6(code: nat)
      requires Valid()
      modifies Footprint()
      ensures Valid() && hook == old(hook) && !level && initialized == old(initialized)
      ensures Out() == After(old(Out()), hook != null, Rc6Frame(code))
    {
      ghost var start := Out();
      HoldTwo(true, RC6_LEADER_PULSE, false, RC6_LEADER_SPACE);
      SendRc6Bit(true);
      AfterAfter(start, hook != null, Rc6Leader(), Rc6Bit(true, 1));
      AfterAfter(start, hook != null, Rc6Leader() + Rc6Bit(true, 1), Rc6Bits(code, 19));
      ghost var all := After(start, hook != null, Rc6Frame(code));
      for i := 19 downto 0
        invariant Valid() && hook == old(hook) && initialized == old(initialized)
        invariant After(Out(), hook != null, Rc6Bits(code, i)) == all
      {
        ghost var o := Out();
        if i == 15 {
          SendRc6TrailerBit(Bit(code, i));
        } else {
          SendRc6Bit(Bit(code, i));
        }
        AfterAfter(o, hook != null, Rc6Bit(Bit(code, i), Rc6Width(i)), Rc6Bits(code, i));
      }
      AfterNothing(Out(), hook != null);
      LedOff();
    }

    /** The two loops of the NEC sender: sixteen bits, least significant first. */
    method SendNecHalf(word: nat)
      requires Valid()
      modifies Footprint()
      ensures Valid() && hook == old(hook) && initialized == old(initialized)
      ensures Out() == After(old(Out()), hook != null, NecBits(word, 0, 16))
    {
      ghost var all := After(Out(), hook != null, NecBits(word, 0, 16));
      for i := 0 to 16
        invariant Valid() && hook == old(hook) && initialized == old(initialized)
        invariant After(Out(), hook != null, NecBits(word, i, 16)) == all
      {
        ghost var o := Out();
        SendNecBit(Bit(word, i));
        AfterAfter(o, hook != null, NecBit(Bit(word, i)), NecBits(word, i + 1, 16));
      }
      AfterNothing(Out(), hook != null);
    }

    method SendNec(code: nat)
      requires Valid()
      modifies Footprint()
      ensures Valid() && hook == old(hook) && !level && initialized == old(initialized)
      ensures Out() == After(old(Out()), hook != null, NecFrame(code))
    {
      hide NecBits, Low, Shr, After;
      ghost var o, hooked := Out(), hook != null;
      var address, command := Low(Shr(code, 16), 16), Low(code, 16);
      ghost var leader := [Segment(true, 9000), Segment(false, 4500)];
      HoldTwo(true, 9000, false, 4500);
      SendNecHalf(address);
      AfterAfter(o, hooked, leader, NecBits(address, 0, 16));
      SendNecHalf(command);
      AfterAfter(o, hooked, leader + NecBits(address, 0, 16), NecBits(command, 0, 16));
      Hold(true, 560);
      AfterAfter(o, hooked, leader + NecBits(address, 0, 16) + NecBits(command, 0, 16), [Segment(true, 560)]);
      LedOff();
    }

    /** `ir_send`: at least one transmission, gaps only between transmissions, nothing for a zero code, an
      * unsupported protocol or an uninitialised transmitter. */
    method Send(c: IrCode) returns (result: int)
      requires Valid()
      modifies Footprint()
      ensures Valid() && hook == old(hook) && initialized == old(initialized)
      ensures result == if initialized && c.code != 0 && !c.protocol.Unsupported? then 0 else -1
      ensures Out() == After(old(Out()), hook != null, if initialized then SendWaveform(c) else [])
    {
      hide Frame, NecFrame, Rc5Frame, Rc6Frame, CodeToRc5, CodeToRc6;
      ghost var start, hooked := Out(), hook != null;
      AfterNothing(start, hooked);
      if !initialized || c.code == 0 {
        return -1;
      }
      var repeats := if c.repeatCount > 0 then c.repeatCount else 1;
      if c.protocol.Unsupported? {
        return -1;
      }
      ghost var all := After(start, hooked, Transmissions(c, 0, repeats));
      for i := 0 to repeats
        invariant Valid() && hook == old(hook) && initialized == old(initialized)
        invariant After(Out(), hooked, Transmissions(c, i, repeats)) == all
      {
        ghost var o := Out();
        SendFrame(c);
        ghost var gap := [];
        if i < repeats - 1 {
          gap := [Gap(c)];
          DelayUs(if c.protocol.Rc6? then RC6_REPEAT_DELAY else RC5_REPEAT_DELAY);
        } else {
          AfterNothing(Out(), hooked);
        }
        AfterAfter(o, hooked, Frame(c), gap);
        AfterAfter(o, hooked, Frame(c) + gap, Transmissions(c, i + 1, repeats));
      }
      AfterNothing(Out(), hooked);
      return 0;
    }

    /** The protocol switch inside the repeat loop. */
    method SendFrame(c: IrCode)
      requires Valid() && !c.protocol.Unsupported?
      modifies Footprint()
      ensures Valid() && hook == old(hook) && !level && initialized == old(initialized)
      ensures Out() == After(old(Out()), hook != null, Frame(c))
    {
      hide After, NecFrame, Rc5Frame, Rc6Frame, CodeToRc5, CodeToRc6;
      match c.protocol {
        case Nec => SendNec(c.code);
        case Rc5 => SendRc5(CodeToRc5(c.code));
        case Rc6 => SendRc6(CodeToRc6(c.code));
        case Phillips => SendRc5(CodeToRc5(c.code));
      }
    }

    /** `capture_begin`: an empty buffer, the LED off, the hook installed. */
    method CaptureBegin(r: Recorder)
      requires r.Valid()
      modifies this, r`count, r`overflow
      ensures Valid() && hook == r && !level && r.Captured() == BLANK
      ensures asked == old(asked) && initialized == old(initialized)
    {
      r.Clear();
      LedOff();
      hook := r;
    }
  }

  /** The RC5 test as a whole, for every word: the captured waveform passes every check and decodes to
    * the word's 14 bits. */
  method Rc5Test(e: Emitter, r: Recorder, code: nat) returns (ok: bool, decoded: nat)
    requires r.Valid()
    modifies e, r, r.segs
    ensures ok && decoded == Low(code, 14)
  {
    hide Rc5Frame, Halves, RecordAll, Low, Rc5Word;
    e.CaptureBegin(r);
    e.SendRc5(code);
    Rc5RoundTrip(code);
    var segs := r.segs[..r.count];
    var n, h := ToHalves(segs, RC5_BIT_TIME, 64);
    ok, decoded := DecodeRc5(h);
    ok := ok && !r.overflow && n == 28;
  }

  /** The RC6 test as a whole: every check passes for every word, and the word comes back when it is a
    * 20-bit word with its start bit set. */
  method Rc6Test(e: Emitter, r: Recorder, code: nat) returns (ok: bool, decoded: nat)
    requires r.Valid()
    modifies e, r, r.segs
    ensures ok && (decoded == code <==> Shr(code, 19) == 1)
  {
    hide Rc6Frame, Halves, RecordAll, Shr, Rc6Word, Rc6BitSound, Rc6Opening, ShiftIn;
    e.CaptureBegin(r);
    e.SendRc6(code);
    Rc6RoundTrip(code);
    var segs := r.segs[..r.count];
    var n, h := ToHalves(segs, RC6_BIT_TIME, 96);
    ok, decoded := DecodeRc6(h);
    ok := ok && !r.overflow && n == 50;
  }

  /** The NEC test as a whole: address and command are the code's two halves. */
  method NecTest(e: Emitter, r: Recorder, code: nat) returns (ok: bool, address: nat, command: nat)
    requires r.Valid()
    modifies e, r, r.segs
    ensures ok && address == Low(Shr(code, 16), 16) && command == Low(code, 16)
  {
    hide NecFrame, RecordAll, Shr, Low, NecWord, NecSound, Or, Shl;
    e.CaptureBegin(r);
    e.SendNec(code);
    NecRoundTrip(code);
    var segs := r.segs[..r.count];
    ok, address, command := DecodeNec(segs);
  }

  /** `ir_send` of any RC5 or Phillips code, captured, requantised and decoded: the decoder's checks pass and it reads the
    * word laid out for the code. */
  method SendRc5Test(e: Emitter, r: Recorder, c: IrCode) returns (ok: bool, decoded: nat)
    requires r.Valid() && e.initialized && c.code != 0 && (c.protocol.Rc5? || c.protocol.Phillips?) && c.repeatCount <= 1
    modifies e, r, r.segs
    ensures ok && forall i: nat :: Bit(decoded, i) == Rc5BitOf(c.code, i)
    ensures decoded == 0x3000 + 0x800 * (c.code / 0x8000_0000 % 2) + 0x40 * (c.code / 0x800 % 0x20) + c.code % 0x40
  {
    hide Rc5Frame, Halves, RecordAll, Low, Rc5Word, SendWaveform, CodeToRc5, Bit, Rc5BitOf;
    e.CaptureBegin(r);
    var sent := e.Send(c);
    SendOnce(c);
    Rc5RoundTrip(CodeToRc5(c.code));
    var segs := r.segs[..r.count];
    var n, h := ToHalves(segs, RC5_BIT_TIME, 64);
    ok, decoded := DecodeRc5(h);
    ok := ok && sent == 0 && !r.overflow && n == 28;
    Rc5WordFits(c.code);
    Rc5WordIs(c.code);
    forall i: nat ensures Bit(decoded, i) == Rc5BitOf(c.code, i) {
      Rc5Layout(c.code, i);
    }
  }

  /** The same for RC6. */
  method SendRc6Test(e: Emitter, r: Recorder, c: IrCode) returns (ok: bool, decoded: nat)
    requires r.Valid() && e.initialized && c.code != 0 && c.protocol.Rc6? && c.repeatCount <= 1
    modifies e, r, r.segs
    ensures ok && forall i: nat :: Bit(decoded, i) == Rc6BitOf(c.code, i)
    ensures decoded == 0x8_0000 + 0x1_0000 * (c.code / 0x1_0000 % 8) + 0x8000 * (c.code / 0x8000_0000 % 2)
                       + 0x80 * (c.code / 0x100 % 0x100) + c.code % 0x80
  {
    hide Rc6Frame, Halves, RecordAll, Shr, Rc6Word, Rc6BitSound, Rc6Opening, ShiftIn, SendWaveform, CodeToRc6, Bit, Rc6BitOf;
    e.CaptureBegin(r);
    var sent := e.Send(c);
    SendOnce(c);
    Rc6RoundTrip(CodeToRc6(c.code));
    var segs := r.segs[..r.count];
    var n, h := ToHalves(segs, RC6_BIT_TIME, 96);
    ok, decoded := DecodeRc6(h);
    ok := ok && sent == 0 && !r.overflow && n == 50;
    Rc6WordFits(c.code);
    Rc6WordIs(c.code);
    forall i: nat ensures Bit(decoded, i) == Rc6BitOf(c.code, i) {
      Rc6Layout(c.code, i);
    }
  }

  /** The same for NEC: the two halves of the code. */
  method SendNecTest(e: Emitter, r: Recorder, c: IrCode) returns (ok: bool, address: nat, command: nat)
    requires r.Valid() && e.initialized && c.code != 0 && c.protocol.Nec? && c.repeatCount <= 1
    modifies e, r, r.segs
    ensures ok && address == c.code / 0x1_0000 % 0x1_0000 && command == c.code % 0x1_0000
  {
    hide NecFrame, RecordAll, Shr, Low, NecWord, NecSound, Or, Shl, SendWaveform;
    e.CaptureBegin(r);
    var sent := e.Send(c);
    SendOnce(c);
    NecRoundTrip(c.code);
    var segs := r.segs[..r.count];
    ok, address, command := DecodeNec(segs);
    ok := ok && sent == 0;
    PowersOfTwo();
    FieldIs(c.code, 16, 16);
    LowIsRemainder(c.code, 16);
  }
}
