/** The connection manager: probing, verifying, reconnecting and sending with retries, over an IR transmitter
  * whose answers are arbitrary. */
module Connection {
  import opened Arithmetic
  import opened Options

  /** A reading of the 32-bit millisecond clock. */
  type Millis = n: nat | n < UINT32_SPAN

  /** Unsigned 32-bit subtraction. */
  function Minus32(a: Millis, b: Millis): nat {
    if a >= b then a - b else a + UINT32_SPAN - b
  }

  datatype Status = Disconnected | Connecting | Connected | Verifying | Failed | Timeout

  datatype Quality = NoQuality | Poor | Fair | Good | Excellent

  datatype Config = Config(maxRetries: nat, verifyIntervalMs: nat, autoReconnect: bool, verifyOnSend: bool)

  /** The grade of a success rate, on exact ratios. */
  function QualityOf(successful: nat, total: nat): Quality {
    if total == 0 then NoQuality
    else if successful * 100 >= total * 95 then Excellent
    else if successful * 100 >= total * 80 then Good
    else if successful * 100 >= total * 60 then Fair
    else Poor
  }

  /** The grades by what they ask: at least 19 of 20 sends, 4 of 5, or 3 of 5. */
  lemma GradesMean(successful: nat, total: nat)
    ensures QualityOf(successful, total) == NoQuality <==> total == 0
    ensures total > 0 ==>
              && (QualityOf(successful, total) == Excellent <==> 20 * successful >= 19 * total)
              && (QualityOf(successful, total) == Good <==> 20 * successful < 19 * total && 5 * successful >= 4 * total)
              && (QualityOf(successful, total) == Fair <==> 5 * successful < 4 * total && 5 * successful >= 3 * total)
              && (QualityOf(successful, total) == Poor <==> 5 * successful < 3 * total)
  {
  }

  /** Counters as if they never wrapped. */
  datatype Tally = Tally(total: nat, successful: nat, failed: nat, retries: nat)

  const NO_TALLY := Tally(0, 0, 0, 0)

  /** The tally after a list of send outcomes that retries each failure it may. */
  ghost function AfterSends(t: Tally, outcomes: seq<bool>, maxRetries: nat): Tally {
    var n := |outcomes|;
    var won := if n > 0 && outcomes[n - 1] then 1 else 0;
    var lost := n - won;
    Tally(t.total + n, t.successful + won, t.failed + lost, t.retries + if lost <= maxRetries then lost else maxRetries)
  }

  /** What a retry loop may see: failures, then at most one success, and no more than `maxRetries + 1` sends; it
    * gives up only after that many failures. */
  ghost predicate RetryPattern(outcomes: seq<bool>, maxRetries: nat, result: int) {
    && |outcomes| <= maxRetries + 1
    && (forall i :: 0 <= i < |outcomes| - 1 ==> !outcomes[i])
    && (result == 0 <==> outcomes != [] && outcomes[|outcomes| - 1])
    && (result != 0 && outcomes != [] ==> |outcomes| == maxRetries + 1)
  }

  /** A send that reaches its loop adds k failures, k retries and one success, or `maxRetries + 1` failures and
    * `maxRetries` retries; either way sends stay the sum of successes and failures. */
  lemma RetryAccounting(t: Tally, outcomes: seq<bool>, maxRetries: nat, result: int)
    requires RetryPattern(outcomes, maxRetries, result) && outcomes != []
    ensures var u, k := AfterSends(t, outcomes, maxRetries), |outcomes| - 1;
            if result == 0 then u == Tally(t.total + k + 1, t.successful + 1, t.failed + k, t.retries + k)
            else u == Tally(t.total + maxRetries + 1, t.successful, t.failed + maxRetries + 1, t.retries + maxRetries)
    ensures t.total == t.successful + t.failed ==>
              AfterSends(t, outcomes, maxRetries).total ==
              AfterSends(t, outcomes, maxRetries).successful + AfterSends(t, outcomes, maxRetries).failed
    ensures t.retries <= t.failed ==>
              AfterSends(t, outcomes, maxRetries).retries <= AfterSends(t, outcomes, maxRetries).failed
  {
  }

  /** One more send after failures alone. */
  lemma OneMoreSend(t: Tally, outcomes: seq<bool>, ok: bool, maxRetries: nat)
    requires |outcomes| <= maxRetries && forall i :: 0 <= i < |outcomes| ==> !outcomes[i]
    ensures var u, v := AfterSends(t, outcomes, maxRetries), AfterSends(t, outcomes + [ok], maxRetries);
            v == Tally(u.total + 1, u.successful + (if ok then 1 else 0), u.failed + (if ok then 0 else 1),
                       u.retries + if !ok && |outcomes| < maxRetries then 1 else 0)
  {
  }

  lemma Pattern(outcomes: seq<bool>, maxRetries: nat, ok: bool)
    requires outcomes != [] && (forall i :: 0 <= i < |outcomes| - 1 ==> !outcomes[i]) && outcomes[|outcomes| - 1] == ok
    requires if ok then |outcomes| <= maxRetries + 1 else |outcomes| == maxRetries + 1
    ensures RetryPattern(outcomes, maxRetries, if ok then 0 else -1)
  {
  }

  lemma NothingSent(t: Tally, maxRetries: nat)
    ensures AfterSends(t, [], maxRetries) == t && RetryPattern([], maxRetries, -1)
  {
  }

  /** One of the first `n` probes succeeded. */
  ghost predicate Answered(probes: seq<bool>, n: nat) {
    exists i :: 0 <= i < |probes| && i < n && probes[i]
  }

  /** Whether the clock still trusts a link verified at `lastVerify`. */
  predicate Trusted(lastVerify: Millis, config: Config, readings: seq<Millis>) {
    readings != [] && Minus32(readings[0], lastVerify) < config.verifyIntervalMs
  }

  /** Whether a link found in this state is up after a verification and, when configured, a reconnect: a connected one
    * is trusted within the interval and otherwise probed once; a lost or missing one is probed up to `maxRetries + 1`
    * times for the remembered device. */
  ghost predicate LinkUp(status: Status, device: nat, lastVerify: Millis, config: Config, readings: seq<Millis>, probes: seq<bool>) {
    var again := if config.autoReconnect && device != 0 then config.maxRetries + 1 else 0;
    if status == Connected then Trusted(lastVerify, config, readings) || Answered(probes, 1 + again)
    else Answered(probes, again)
  }

  /** A retry loop of probes succeeds exactly when one of its probes does. */
  lemma ProbesAnswer(probes: seq<bool>, maxRetries: nat, result: int)
    requires probes != [] && RetryPattern(probes, maxRetries, result)
    ensures result == 0 <==> Answered(probes, maxRetries + 1)
  {
  }

  lemma AfterOneProbe(probes: seq<bool>, n: nat)
    requires probes != []
    ensures Answered(probes, 1 + n) <==> probes[0] || Answered(probes[1..], n)
  {
    if Answered(probes[1..], n) {
      var i :| 0 <= i < |probes[1..]| && i < n && probes[1..][i];
      assert probes[i + 1];
    }
    if Answered(probes, 1 + n) && !probes[0] {
      var i :| 0 <= i < |probes| && i < 1 + n && probes[i];
      assert probes[1..][i - 1];
    }
  }

  /** Only the first reading matters, and only for a connected link. */
  lemma LinkByFirstReading(status: Status, device: nat, lastVerify: Millis, config: Config, readings: seq<Millis>,
                           more: seq<Millis>, probes: seq<bool>)
    requires readings <= more && (status == Connected ==> readings != [])
    ensures LinkUp(status, device, lastVerify, config, readings, probes) == LinkUp(status, device, lastVerify, config, more, probes)
  {
  }

  /** The clock trusts a link for the interval after its last verification, counted around the clock's 32 bits; so it
    * trusts a link just verified whenever the interval is not zero. */
  lemma TrustedMeans(lastVerify: Millis, config: Config, readings: seq<Millis>)
    ensures Trusted(lastVerify, config, readings) <==>
              readings != [] && (readings[0] - lastVerify) % 0x1_0000_0000 < config.verifyIntervalMs
    ensures readings != [] && readings[0] == lastVerify && config.verifyIntervalMs > 0 ==> Trusted(lastVerify, config, readings)
  {
  }

  /** What a link that could not be brought up is left as. */
  ghost predicate LeftDown(config: Config, was: Status, target: nat, status: Status, device: nat) {
    if was == Connected then status == Failed && device == if config.autoReconnect then 0 else target
    else if config.autoReconnect && target != 0 then status == Failed && device == 0
    else status == was && device == target
  }

  /** What an exhausted send does to the link: nothing when there is no auto-reconnect, no connection or no device to go
    * back to; otherwise probes are asked, and one that answers leaves it connected to the same device and none leaves
    * it failed with no device. */
  ghost predicate GaveUp(config: Config, was: Status, target: nat, probes: seq<bool>, status: Status, device: nat) {
    if !config.autoReconnect || was != Connected || target == 0 then probes == [] && status == was && device == target
    else
      && probes != [] && |probes| <= config.maxRetries + 1
      && (forall i :: 0 <= i < |probes| - 1 ==> !probes[i])
      && (probes[|probes| - 1] ==> status == Connected && device == target)
      && (!probes[|probes| - 1] ==> |probes| == config.maxRetries + 1 && status == Failed && device == 0)
  }

  /** The codes sent since are this one, `n` times. */
  ghost predicate OnlyThis(before: seq<nat>, after: seq<nat>, code: nat, n: nat) {
    |after| == |before| + n && before <= after && forall i :: |before| <= i < |after| ==> after[i] == code
  }

  lemma NoneOfThis(codes: seq<nat>, code: nat)
    ensures OnlyThis(codes, codes, code, 0)
  {
  }

  /** The transmitter and the clock: every answer is arbitrary; the answers to readiness probes, the codes and outcomes of
    * sends and the clock's readings are remembered. */
  class Transmitter {
    ghost var outcomes: seq<bool>
    ghost var codes: seq<nat>
    ghost var answers: seq<bool>
    ghost var readings: seq<Millis>

    constructor ()
      ensures outcomes == [] && codes == [] && answers == [] && readings == []
    {
      outcomes, codes, answers, readings := [], [], [], [];
    }

    method IsReady() returns (ready: bool)
      modifies this`answers
      ensures answers == old(answers) + [ready]
    {
      ready := *;
      answers := answers + [ready];
    }

    method Send(code: nat) returns (ok: bool)
      modifies this`outcomes, this`codes
      ensures outcomes == old(outcomes) + [ok] && codes == old(codes) + [code]
    {
      ok := *;
      outcomes, codes := outcomes + [ok], codes + [code];
    }

    method Clock() returns (ms: Millis)
      modifies this`readings
      ensures readings == old(readings) + [ms]
    {
      var t: nat := *;
      ms := Wrap32(t);
      readings := readings + [ms];
    }
  }

  class Manager {
    const ir: Transmitter
    var status: Status
    var initialized: bool
    var device: nat
    var lastVerify: Millis
    var config: Config

    var total: nat
    var successful: nat
    var failed: nat
    var retries: nat
    var attempts: nat
    var lastSuccess: nat
    var lastFailure: nat
    var quality: Quality

    /** The counters since the last reset, as if they never wrapped. */
    ghost var tally: Tally
    /** The device of the last successful establish. */
    ghost var established: Option<nat>

    ghost predicate CountersHold()
      reads this
    {
      && total == Wrap32(tally.total) && successful == Wrap32(tally.successful)
      && failed == Wrap32(tally.failed) && retries == Wrap32(tally.retries)
      && tally.total == tally.successful + tally.failed && tally.retries <= tally.failed
    }

    /** What holds whenever no operation is running. */
    ghost predicate Valid()
      reads this
    {
      && CountersHold()
      && (status == Disconnected || status == Connected || status == Failed)
      && (status == Disconnected ==> device == 0)
      && (status == Connected ==> established == Some(device))
      && (!initialized ==> status == Disconnected)
    }

    /** Below 2^32 sends the stored counters themselves are conserved. */
    lemma Conserved()
      requires Valid() && tally.total < UINT32_SPAN
      ensures total == successful + failed && retries <= failed
    {
    }

    constructor (ir: Transmitter, config: Config)
      ensures Valid() && status == Disconnected && !initialized && this.ir == ir && this.config == config
      ensures tally == NO_TALLY
    {
      this.ir, this.config := ir, config;
      status, initialized, device, lastVerify := Disconnected, false, 0, 0;
      total, successful, failed, retries, attempts := 0, 0, 0, 0, 0;
      lastSuccess, lastFailure, quality := 0, 0, NoQuality;
      tally, established := NO_TALLY, None;
    }

    method Init()
      requires Valid()
      modifies this
      ensures Valid() && initialized && config == old(config)
      ensures old(initialized) ==> status == old(status) && device == old(device) && tally == old(tally)
      ensures !old(initialized) ==> status == Disconnected && tally == NO_TALLY
    {
      if initialized {
        return;
      }
      status := Disconnected;
      ResetStats();
      initialized := true;
    }

    method SetConfig(c: Config)
      requires Valid()
      modifies this`config
      ensures Valid() && config == c
    {
      config := c;
    }

    /** `connection_establish`: already connected to the device, or up to `maxRetries + 1` probes. A failure keeps the
      * device of an earlier connection. */
    method Establish(deviceType: nat) returns (result: int)
      requires Valid()
      modifies ir`answers, ir`readings, this`status, this`device, this`lastVerify, this`attempts, this`lastSuccess, this`lastFailure, this`quality, this`established
      ensures Valid() && (result == 0 || result == -1)
      ensures !initialized ==> result == -1 && status == old(status) && device == old(device)
      ensures result == 0 ==> status == Connected && device == deviceType && established == Some(deviceType)
      ensures old(ir.answers) <= ir.answers && old(ir.readings) <= ir.readings
      ensures var probes := ir.answers[|old(ir.answers)|..];
              if !initialized || (old(status) == Connected && old(device) == deviceType) then
                probes == [] && ir.readings == old(ir.readings) && attempts == old(attempts) && lastVerify == old(lastVerify)
              else
                && probes != [] && RetryPattern(probes, config.maxRetries, result) && attempts == Wrap32(old(attempts) + 1)
                && |ir.readings| == |old(ir.readings)| + 1
                && var now := ir.readings[|old(ir.readings)|];
                if result == 0 then lastVerify == lastSuccess == now && quality == Good
                else lastFailure == now && lastVerify == old(lastVerify)
      ensures initialized && result != 0 ==> status == Failed && device == old(device) && established == old(established)
    {
      hide RetryPattern, Wrap32;
      ghost var asked := |ir.answers|;
      assert ir.answers[asked..] == [];
      if !initialized {
        return -1;
      }
      if status == Connected && device == deviceType {
        return 0;
      }
      status := Connecting;
      attempts := Wrap32(attempts + 1);
      var ready := Probe();
      result := Settle(deviceType, ready);
    }

    /** The end of `connection_establish`: what a successful or a failed probe leaves behind. */
    method Settle(deviceType: nat, ready: bool) returns (result: int)
      requires CountersHold() && initialized
      modifies ir`readings, this`status, this`device, this`lastVerify, this`lastSuccess, this`lastFailure, this`quality, this`established
      ensures |ir.readings| == |old(ir.readings)| + 1 && old(ir.readings) <= ir.readings
      ensures var now := ir.readings[|old(ir.readings)|];
              if ready then lastVerify == lastSuccess == now && quality == Good
              else lastFailure == now && lastVerify == old(lastVerify)
      ensures Valid() && result == if ready then 0 else -1
      ensures ready ==> status == Connected && device == deviceType && established == Some(deviceType)
      ensures !ready ==> status == Failed && device == old(device) && established == old(established)
    {
      var now := ir.Clock();
      if ready {
        status, device, lastVerify, lastSuccess, quality := Connected, deviceType, now, now, Good;
        established := Some(deviceType);
        return 0;
      }
      status, lastFailure := Failed, now;
      return -1;
    }

    /** The probing loop: nothing is sent, and no more than `maxRetries + 1` answers are asked for. */
    method Probe() returns (ready: bool)
      modifies ir`answers
      ensures old(ir.answers) <= ir.answers
      ensures var probes := ir.answers[|old(ir.answers)|..];
              probes != [] && RetryPattern(probes, config.maxRetries, if ready then 0 else -1)
    {
      ready := false;
      ghost var from := |ir.answers|;
      ghost var probes: seq<bool> := [];
      for attempt := 0 to config.maxRetries + 1
        invariant ir.answers == old(ir.answers) + probes && !ready
        invariant |probes| == attempt && forall i :: 0 <= i < attempt ==> !probes[i]
      {
        ready := ir.IsReady();
        probes := probes + [ready];
        assert ir.answers[from..] == probes;
        if ready {
          return;
        }
      }
    }

    method Disconnect()
      requires Valid()
      modifies this`status, this`device
      ensures Valid() && status == Disconnected && device == 0
    {
      if status == Disconnected {
        return;
      }
      status, device := Disconnected, 0;
    }

    /** `connection_reconnect`: disconnect, then establish the remembered device again. */
    method Reconnect() returns (result: int)
      requires Valid()
      modifies ir`answers, ir`readings, this`status, this`device, this`lastVerify, this`attempts, this`lastSuccess, this`lastFailure, this`quality, this`established
      ensures Valid() && (result == 0 || result == -1)
      ensures !initialized || old(device) == 0 ==> result == -1 && status == old(status) && device == old(device)
      ensures result == 0 ==> status == Connected && device == old(device) && established == Some(device)
      ensures initialized && old(device) != 0 && result != 0 ==> status == Failed && device == 0
      ensures old(ir.answers) <= ir.answers && old(ir.readings) <= ir.readings
      ensures var probes := ir.answers[|old(ir.answers)|..];
              if !initialized || old(device) == 0 then probes == [] && ir.readings == old(ir.readings)
              else
                && probes != [] && RetryPattern(probes, config.maxRetries, result)
                && |ir.readings| == |old(ir.readings)| + 1
                && (result == 0 ==> lastVerify == ir.readings[|old(ir.readings)|])
    {
      hide RetryPattern, Wrap32;
      ghost var asked := |ir.answers|;
      assert ir.answers[asked..] == [];
      if !initialized {
        return -1;
      }
      if device == 0 {
        return -1;
      }
      var target := device;
      Disconnect();
      result := Establish(target);
    }

    /** `connection_verify`: within the interval the link is trusted; otherwise it is probed again, and a lost link
      * is reconnected when configured. It succeeds exactly when the link is up. */
    method Verify() returns (result: int)
      requires Valid()
      modifies ir`answers, ir`readings, this`status, this`device, this`lastVerify, this`attempts, this`lastSuccess, this`lastFailure, this`quality, this`established
      ensures Valid() && (result == 0 || result == -1)
      ensures old(ir.answers) <= ir.answers && old(ir.readings) <= ir.readings
      ensures var probes, readings := ir.answers[|old(ir.answers)|..], ir.readings[|old(ir.readings)|..];
              if !initialized || old(status) != Connected then
                result == -1 && status == old(status) && device == old(device) && probes == [] && readings == []
              else
                && readings != []
                && (result == 0 <==> LinkUp(old(status), old(device), old(lastVerify), config, readings, probes))
                && (if Trusted(old(lastVerify), config, readings) then probes == [] && lastVerify == old(lastVerify)
                    else probes != [] && (probes[0] ==> probes == [true] && lastVerify == readings[0]))
      ensures result == 0 ==> status == Connected && device == old(device)
      ensures result != 0 && initialized && old(status) == Connected ==>
                status == Failed && device == if config.autoReconnect then 0 else old(device)
    {
      hide Answered;
      ghost var asked, read := ir.answers, ir.readings;
      if !initialized {
        return -1;
      }
      if status != Connected {
        return -1;
      }
      var now := ir.Clock();
      Appended(read, ir.readings, ir.readings);
      NoProbes();
      if Minus32(now, lastVerify) < config.verifyIntervalMs {
        return 0;
      }
      ghost var readings := ir.readings;
      result := Reprobe(now);
      Appended(read, readings, ir.readings);
    }

    /** The second half of `connection_verify`, past the interval. */
    method Reprobe(now: Millis) returns (result: int)
      requires Valid() && initialized && status == Connected
      modifies ir`answers, ir`readings, this`status, this`device, this`lastVerify, this`attempts, this`lastSuccess, this`lastFailure, this`quality, this`established
      ensures Valid() && (result == 0 || result == -1)
      ensures old(ir.answers) <= ir.answers && old(ir.readings) <= ir.readings
      ensures var probes := ir.answers[|old(ir.answers)|..];
              && probes != [] && (probes[0] ==> probes == [true] && lastVerify == lastSuccess == now && quality == QualityOf(successful, total))
              && (result == 0 <==> Answered(probes, 1 + if config.autoReconnect && old(device) != 0 then config.maxRetries + 1 else 0))
      ensures result == 0 ==> status == Connected && device == old(device)
      ensures result != 0 ==> status == Failed && device == if config.autoReconnect then 0 else old(device)
    {
      hide RetryPattern, Answered;
      ghost var asked := ir.answers;
      NoProbes();
      status := Verifying;
      var ready := ir.IsReady();
      ghost var first := ir.answers;
      Appended(asked, first, first);
      AfterOneProbe([ready], 0);
      AfterOneProbe([ready], config.maxRetries + 1);
      if ready {
        status, lastVerify, lastSuccess := Connected, now, now;
        quality := QualityOf(successful, total);
        return 0;
      }
      status, lastFailure := Failed, now;
      if !config.autoReconnect {
        return -1;
      }
      ghost var target := device;
      result := Reconnect();
      ghost var more := ir.answers[|first|..];
      Appended(asked, first, ir.answers);
      assert [ready] + more == ir.answers[|asked|..] && ([ready] + more)[1..] == more;
      AfterOneProbe([ready] + more, config.maxRetries + 1);
      if target != 0 {
        ProbesAnswer(more, config.maxRetries, result);
      }
    }

    static lemma Appended<T>(a: seq<T>, b: seq<T>, c: seq<T>)
      requires a <= b <= c
      ensures c[|a|..] == b[|a|..] + c[|b|..]
      ensures forall x :: b == a + [x] ==> b[|a|..] == [x]
    {
    }

    static lemma NoProbes()
      ensures forall n :: !Answered([], n)
      ensures forall probes :: !Answered(probes, 0)
    {
    }

    /** `connection_test`: one real send, counted, without any retry; a zero code is refused. */
    method TestSend(code: nat) returns (result: int)
      requires Valid()
      modifies ir`outcomes, ir`codes, this`total, this`successful, this`failed, this`quality, this`tally
      ensures Valid()
      ensures !initialized || code == 0 ==> result == -1 && tally == old(tally) && ir.outcomes == old(ir.outcomes)
      ensures initialized && code != 0 ==>
                && ir.outcomes == old(ir.outcomes) + [result == 0] && ir.codes == old(ir.codes) + [code]
                && tally == AfterSends(old(tally), [result == 0], 0) && quality == QualityOf(successful, total)
    {
      if !initialized {
        return -1;
      }
      if code == 0 {
        return -1;
      }
      hide Wrap32;
      var ok := ir.Send(code);
      CountUp(total, tally.total);
      CountUp(successful, tally.successful);
      CountUp(failed, tally.failed);
      if ok {
        successful := Wrap32(successful + 1);
      } else {
        failed := Wrap32(failed + 1);
      }
      total := Wrap32(total + 1);
      tally := AfterSends(tally, [ok], 0);
      quality := QualityOf(successful, total);
      return if ok then 0 else -1;
    }

    method IsConnected() returns (connected: bool)
      requires Valid()
      modifies ir`answers, ir`readings, this`status, this`device, this`lastVerify, this`attempts, this`lastSuccess, this`lastFailure, this`quality, this`established
      ensures Valid() && connected == (status == Connected)
      ensures old(ir.answers) <= ir.answers && old(ir.readings) <= ir.readings
      ensures var probes, readings := ir.answers[|old(ir.answers)|..], ir.readings[|old(ir.readings)|..];
              connected <==> old(status) == Connected && (config.verifyOnSend ==>
                LinkUp(old(status), old(device), old(lastVerify), config, readings, probes))
    {
      hide LinkUp;
      if status == Connected {
        if config.verifyOnSend {
          var r := Verify();
          return r == 0;
        }
        return true;
      }
      return false;
    }

    method ConnectedDevice() returns (d: nat)
      requires Valid()
      ensures d == if status == Connected then device else 0
    {
      return if status == Connected then device else 0;
    }

    /** The guard of `connection_send_with_retry`: the link is verified and, when that fails, reconnected if configured. */
    method BringUp() returns (up: bool)
      requires Valid() && initialized
      modifies ir`answers, ir`readings, this`status, this`device, this`lastVerify, this`attempts, this`lastSuccess, this`lastFailure, this`quality, this`established
      ensures Valid() && old(ir.answers) <= ir.answers && old(ir.readings) <= ir.readings
      ensures var probes, readings := ir.answers[|old(ir.answers)|..], ir.readings[|old(ir.readings)|..];
              && up == LinkUp(old(status), old(device), old(lastVerify), config, readings, probes)
              && (old(status) == Connected ==> readings != [])
      ensures up ==> status == Connected && device == old(device)
      ensures !up ==> LeftDown(config, old(status), old(device), status, device)
    {
      hide RetryPattern, Trusted, Answered;
      ghost var asked, read, was, target := ir.answers, ir.readings, status, device;
      NoProbes();
      var verified := Verify();
      if verified == 0 {
        return true;
      }
      if !config.autoReconnect {
        return false;
      }
      ghost var probed := ir.answers;
      var again := Reconnect();
      Appended(asked, probed, ir.answers);
      if was == Connected {
        assert device == 0 && again != 0;
        assert ir.answers == probed;
      } else if target != 0 {
        assert probed == asked;
        ProbesAnswer(ir.answers[|asked|..], config.maxRetries, again);
      }
      return again == 0;
    }

    /** `connection_send_with_retry`: the link is verified first when configured; then failures are retried up to
      * `maxRetries` times, and a send that never succeeds reconnects when configured. The first `checked` probes are those
      * of the verification, the others those of the reconnect. */
    method SendWithRetry(code: nat) returns (result: int, ghost checked: nat)
      requires Valid()
      modifies this, ir
      ensures Valid() && config == old(config) && initialized == old(initialized)
      ensures old(ir.outcomes) <= ir.outcomes
      ensures var sent := ir.outcomes[|old(ir.outcomes)|..];
              && RetryPattern(sent, config.maxRetries, result) && (result == 0 || result == -1)
              && tally == AfterSends(old(tally), sent, config.maxRetries)
              && OnlyThis(old(ir.codes), ir.codes, code, |sent|)
              && (!initialized || code == 0 ==>
                    sent == [] && status == old(status) && device == old(device) && ir.answers == old(ir.answers))
      ensures old(ir.answers) <= ir.answers && old(ir.readings) <= ir.readings
      ensures initialized && code != 0 ==>
                var sent, probes := |ir.outcomes| - |old(ir.outcomes)|, ir.answers[|old(ir.answers)|..];
                && checked <= |probes| && (!config.verifyOnSend ==> checked == 0)
                && (sent > 0 <==> (config.verifyOnSend ==>
                      LinkUp(old(status), old(device), old(lastVerify), config, ir.readings[|old(ir.readings)|..], probes[..checked])))
                && (sent == 0 ==> checked == |probes| && LeftDown(config, old(status), old(device), status, device))
                && var was := if config.verifyOnSend then Connected else old(status);
                && (result == 0 ==> checked == |probes| && status == was && device == old(device))
                && (sent > 0 && result != 0 ==> GaveUp(config, was, old(device), probes[checked..], status, device))
    {
      hide Wrap32, AfterSends, RetryPattern, LinkUp, Trusted, QualityOf, GaveUp, LeftDown, OnlyThis;
      ghost var from, asked, read, was := ir.outcomes, ir.answers, ir.readings, status;
      ghost var target, since := device, lastVerify;
      NothingSent(tally, config.maxRetries);
      NoneOfThis(ir.codes, code);
      Appended(from, from, from);
      checked := 0;
      if !initialized {
        return -1, 0;
      }
      if code == 0 {
        return -1, 0;
      }
      if config.verifyOnSend {
        var up := BringUp();
        checked := |ir.answers| - |asked|;
        assert ir.answers[|asked|..][..checked] == ir.answers[|asked|..];
        if !up {
          return -1, checked;
        }
      }
      ghost var probed, seen := ir.answers, ir.readings;
      result := SendLoop(code);
      if result != 0 {
        GiveUp();
      }
      Appended(asked, probed, ir.answers);
      assert ir.answers[|asked|..][..checked] == probed[|asked|..] && ir.answers[|asked|..][checked..] == ir.answers[|probed|..];
      if config.verifyOnSend {
        Appended(read, seen, ir.readings);
        LinkByFirstReading(was, target, since, config, seen[|read|..], ir.readings[|read|..], probed[|asked|..]);
      }
    }

    /** The end of `connection_send_with_retry` when no send succeeded. */
    method GiveUp()
      requires Valid() && initialized
      modifies ir`answers, ir`readings, this`status, this`device, this`lastVerify, this`attempts, this`lastSuccess, this`lastFailure, this`quality, this`established
      ensures Valid() && old(ir.answers) <= ir.answers && old(ir.readings) <= ir.readings
      ensures GaveUp(config, old(status), old(device), ir.answers[|old(ir.answers)|..], status, device)
    {
      lastFailure := ir.Clock();
      quality := QualityOf(successful, total);
      if config.autoReconnect && status == Connected {
        var r := Reconnect();
      }
    }

    /** The retry loop of `connection_send_with_retry`. */
    method SendLoop(code: nat) returns (result: int)
      requires CountersHold()
      modifies ir`outcomes, ir`codes, ir`readings, this`total, this`successful, this`failed, this`retries, this`lastSuccess, this`quality, this`tally
      ensures CountersHold() && old(ir.outcomes) <= ir.outcomes && old(ir.readings) <= ir.readings
      ensures var sent := ir.outcomes[|old(ir.outcomes)|..];
              && sent != [] && RetryPattern(sent, config.maxRetries, result) && (result == 0 || result == -1)
              && tally == AfterSends(old(tally), sent, config.maxRetries)
              && OnlyThis(old(ir.codes), ir.codes, code, |sent|)
      ensures result == 0 ==> quality == QualityOf(successful, total)
    {
      hide Wrap32, AfterSends, RetryPattern, QualityOf;
      NoneOfThis(ir.codes, code);
      NothingSent(tally, config.maxRetries);
      ghost var before, from := tally, |ir.outcomes|;
      ghost var sent: seq<bool> := [];
      for attempt := 0 to config.maxRetries + 1
        invariant CountersHold() && ir.outcomes == old(ir.outcomes) + sent && ir.readings == old(ir.readings)
        invariant |sent| == attempt && forall i :: 0 <= i < attempt ==> !sent[i]
        invariant OnlyThis(old(ir.codes), ir.codes, code, attempt)
        invariant tally == AfterSends(before, sent, config.maxRetries)
        invariant attempt > config.maxRetries ==> RetryPattern(sent, config.maxRetries, -1)
      {
        var ok := ir.Send(code);
        OneMoreSend(before, sent, ok, config.maxRetries);
        sent := sent + [ok];
        assert ir.outcomes[from..] == sent;
        if ok || attempt == config.maxRetries {
          Pattern(sent, config.maxRetries, ok);
        }
        CountUp(total, tally.total);
        CountUp(successful, tally.successful);
        CountUp(failed, tally.failed);
        CountUp(retries, tally.retries);
        total := Wrap32(total + 1);
        if ok {
          successful := Wrap32(successful + 1);
          tally := AfterSends(before, sent, config.maxRetries);
          lastSuccess := ir.Clock();
          quality := QualityOf(successful, total);
          return 0;
        }
        failed := Wrap32(failed + 1);
        if attempt < config.maxRetries {
          retries := Wrap32(retries + 1);
        }
        tally := AfterSends(before, sent, config.maxRetries);
      }
      return -1;
    }

    static lemma CountUp(stored: nat, count: nat)
      requires stored == Wrap32(count)
      ensures Wrap32(stored + 1) == Wrap32(count + 1)
    {
    }

    /** `connection_reset_stats`. */
    method ResetStats()
      requires CountersHold()
      modifies this`total, this`successful, this`failed, this`retries, this`attempts, this`lastSuccess, this`lastFailure, this`quality, this`tally
      ensures CountersHold() && tally == NO_TALLY
    {
      total, successful, failed, retries, attempts := 0, 0, 0, 0, 0;
      lastSuccess, lastFailure, quality := 0, 0, NoQuality;
      tally := NO_TALLY;
    }

    method Cleanup()
      requires Valid()
      modifies this`status, this`device, this`initialized
      ensures Valid() && !initialized && (old(initialized) ==> status == Disconnected)
    {
      if !initialized {
        return;
      }
      Disconnect();
      initialized := false;
    }
  }
}
