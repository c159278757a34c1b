/** The time-of-day scheduler: rules fire at most once per minute and preset, and every due minute fires. */
module Scheduler {
  import opened Options

  /** What the scheduler reads of local time; `wday` is the lower-case day name. */
  datatype Clock = Clock(yday: int, hour: int, minute: int, wday: string)

  type MinuteKey = (int, int, int)

  function KeyOf(now: Clock): MinuteKey {
    (now.yday, now.hour, now.minute)
  }

  /** The `time` entry of a rule: missing, not of the form "h:m", or a time. */
  datatype RuleTime = Missing | Malformed | At(hour: int, minute: int)

  /** A rule; `days` holds lower-case names and empty strings stand for absent entries. */
  datatype Rule = Rule(action: string, presetName: string, time: RuleTime, days: seq<string>, target: string)

  datatype Preset = Preset(name: string, target: string)

  const DAY_NAMES: seq<string> := ["mon", "tue", "wed", "thu", "fri", "sat", "sun"]

  predicate ShouldRun(rule: Rule, now: Clock) {
    match rule.time
    case Missing => false
    case Malformed => false
    case At(h, m) =>
      var days := if rule.days == [] then DAY_NAMES else rule.days;
      now.wday in days && now.hour == h && now.minute == m
  }

  /** A rule that the loop does not skip, leaving aside what already fired. */
  predicate Due(rule: Rule, now: Clock) {
    rule.action == "apply_preset" && rule.presetName != "" && ShouldRun(rule, now)
  }

  function PresetTarget(presets: seq<Preset>, name: string): string {
    if presets == [] then ""
    else if presets[0].name == name then presets[0].target
    else PresetTarget(presets[1..], name)
  }

  /** The rule's own target, else the preset's, else the default. */
  function Target(rule: Rule, presets: seq<Preset>, default: string): string {
    if rule.target != "" then rule.target
    else
      var t := PresetTarget(presets, rule.presetName);
      if t != "" then t else default
  }

  /** One attempt to apply a preset: the rule that caused it and where it went. */
  datatype Attempt = Attempt(rule: nat, preset: string, target: string)

  type Fired = set<(MinuteKey, string)>

  datatype Config = Config(rules: seq<Rule>, presets: seq<Preset>, defaultTarget: string)

  /** The attempts of one tick made by the first `n` rules, and what is remembered after them. */
  function Attempts(cfg: Config, now: Clock, last: Fired, n: nat): (seq<Attempt>, Fired)
    requires n <= |cfg.rules|
  {
    if n == 0 then ([], last)
    else
      var (done, seen) := Attempts(cfg, now, last, n - 1);
      var rule := cfg.rules[n - 1];
      var key := (KeyOf(now), rule.presetName);
      if !Due(rule, now) || key in seen then (done, seen)
      else (done + [Attempt(n - 1, rule.presetName, Target(rule, cfg.presets, cfg.defaultTarget))], seen + {key})
  }

  /** Entries of other minutes are forgotten at the end of a tick. */
  function Prune(seen: Fired, now: Clock): Fired {
    set k | k in seen && k.0 == KeyOf(now)
  }

  /** The attempts that did not raise, in order; `raises(i)` says whether attempt `i` of the tick raised. */
  function Succeeded(done: seq<Attempt>, raises: nat -> bool): seq<(string, string)> {
    if done == [] then []
    else
      var n := |done| - 1;
      Succeeded(done[..n], raises) + if raises(n) then [] else [(done[n].preset, done[n].target)]
  }

  /** The scheduler's memory, updated in place by every tick. */
  class Memory {
    var lastTriggered: Fired

    constructor ()
      ensures lastTriggered == {}
    {
      lastTriggered := {};
    }

    /** `run_due_rules`: an attempt that raises is remembered as triggered but not reported as fired. */
    method RunDueRules(cfg: Config, now: Clock, raises: nat -> bool)
      returns (fired: seq<(string, string)>, ghost attempts: seq<Attempt>)
      modifies this
      ensures attempts == Attempts(cfg, now, old(lastTriggered), |cfg.rules|).0
      ensures lastTriggered == Prune(Attempts(cfg, now, old(lastTriggered), |cfg.rules|).1, now)
      ensures fired == Succeeded(attempts, raises)
    {
      hide ShouldRun, KeyOf;
      var minuteKey := KeyOf(now);
      var count := 0;
      fired, attempts := [], [];
      for i := 0 to |cfg.rules|
        invariant (attempts, lastTriggered) == Attempts(cfg, now, old(lastTriggered), i)
        invariant fired == Succeeded(attempts, raises) && count == |attempts|
      {
        var rule := cfg.rules[i];
        if rule.action != "apply_preset" || rule.presetName == "" || !ShouldRun(rule, now) {
          continue;
        }
        var key := (minuteKey, rule.presetName);
        if key in lastTriggered {
          continue;
        }
        lastTriggered := lastTriggered + {key};
        var target := rule.target;
        if target == "" {
          target := PresetTarget(cfg.presets, rule.presetName);
        }
        if target == "" {
          target := cfg.defaultTarget;
        }
        ghost var more := attempts + [Attempt(i, rule.presetName, target)];
        assert more[..|more| - 1] == attempts;
        attempts := more;
        if !raises(count) {
          fired := fired + [(rule.presetName, target)];
        }
        count := count + 1;
      }
      Forget(now);
    }

    /** The pruning loop at the end of a tick. */
    method Forget(now: Clock)
      modifies this
      ensures lastTriggered == Prune(old(lastTriggered), now)
    {
      hide KeyOf;
      var stale := set k | k in lastTriggered && k.0 != KeyOf(now);
      while stale != {}
        invariant forall k :: k in stale ==> k in lastTriggered && k.0 != KeyOf(now)
        invariant forall k :: k in lastTriggered && k.0 != KeyOf(now) ==> k in stale
        invariant Prune(old(lastTriggered), now) <= lastTriggered <= old(lastTriggered)
        decreases stale
      {
        var k :| k in stale;
        lastTriggered := lastTriggered - {k};
        stale := stale - {k};
      }
      assert forall k :: k in lastTriggered ==> k in Prune(old(lastTriggered), now);
    }
  }

  // ---- one tick -------------------------------------------------------------------------

  /** Some rule among the first `n` is due for this preset. */
  ghost predicate DuePreset(cfg: Config, now: Clock, preset: string, n: nat)
    requires n <= |cfg.rules|
  {
    exists i :: 0 <= i < n && Due(cfg.rules[i], now) && cfg.rules[i].presetName == preset
  }

  /** How often a list of attempts applies a preset. */
  ghost function Count(done: seq<Attempt>, preset: string): nat {
    if done == [] then 0
    else Count(done[..|done| - 1], preset) + if done[|done| - 1].preset == preset then 1 else 0
  }

  /** Every attempt was made by the first due rule naming its preset, and went to that rule's target. */
  ghost predicate ByFirstDueRule(cfg: Config, now: Clock, a: Attempt) {
    && a.rule < |cfg.rules| && Due(cfg.rules[a.rule], now) && cfg.rules[a.rule].presetName == a.preset
    && !DuePreset(cfg, now, a.preset, a.rule)
    && a.target == Target(cfg.rules[a.rule], cfg.presets, cfg.defaultTarget)
  }

  /** A tick attempts each due preset that the minute has not seen exactly once, by its first due rule, and
    * remembers exactly the presets seen or due. */
  lemma {:induction false} TickAttempts(cfg: Config, now: Clock, last: Fired, n: nat, preset: string)
    requires n <= |cfg.rules|
    ensures var (done, seen) := Attempts(cfg, now, last, n);
            && Count(done, preset) == (if (KeyOf(now), preset) !in last && DuePreset(cfg, now, preset, n) then 1 else 0)
            && ((KeyOf(now), preset) in seen <==> (KeyOf(now), preset) in last || DuePreset(cfg, now, preset, n))
  {
    hide Due, DuePreset, KeyOf, Target;
    if n == 0 {
      NoneDueYet(cfg, now, preset);
    } else {
      TickAttempts(cfg, now, last, n - 1, preset);
      DuePresetStep(cfg, now, preset, n - 1);
      var done, rule := Attempts(cfg, now, last, n - 1).0, cfg.rules[n - 1];
      var a := Attempt(n - 1, rule.presetName, Target(rule, cfg.presets, cfg.defaultTarget));
      assert (done + [a])[..|done|] == done;
    }
  }

  lemma NoneDueYet(cfg: Config, now: Clock, preset: string)
    ensures !DuePreset(cfg, now, preset, 0)
  {
  }

  lemma DuePresetStep(cfg: Config, now: Clock, preset: string, n: nat)
    requires n < |cfg.rules|
    ensures DuePreset(cfg, now, preset, n + 1) <==>
            DuePreset(cfg, now, preset, n) || (Due(cfg.rules[n], now) && cfg.rules[n].presetName == preset)
  {
    hide Due;
    if DuePreset(cfg, now, preset, n) {
      var i :| 0 <= i < n && Due(cfg.rules[i], now) && cfg.rules[i].presetName == preset;
      assert DuePreset(cfg, now, preset, n + 1);
    }
  }

  lemma {:induction false} AttemptsAreFirst(cfg: Config, now: Clock, last: Fired, n: nat)
    requires n <= |cfg.rules|
    ensures var done := Attempts(cfg, now, last, n).0;
            forall j :: 0 <= j < |done| ==> ByFirstDueRule(cfg, now, done[j]) && done[j].rule < n
  {
    hide Due, Target;
    if n > 0 {
      AttemptsAreFirst(cfg, now, last, n - 1);
      TickAttempts(cfg, now, last, n - 1, cfg.rules[n - 1].presetName);
    }
  }

  // ---- whole runs -----------------------------------------------------------------------

  /** A local calendar: the clock shown during each minute since some origin. Neighbouring minutes never show the
    * same key, which holds across midnights, years and daylight-saving changes alike. */
  ghost predicate Calendar(cal: int -> Clock) {
    forall m: int :: KeyOf(cal(m)) != KeyOf(cal(m + 1))
  }

  /** The minute of a time in seconds. */
  function MinuteOf(t: real): int {
    (t / 60.0).Floor
  }

  /** Ticks move forward by at most a minute. */
  ghost predicate Ticks(ts: seq<real>) {
    forall i :: 0 < i < |ts| ==> ts[i - 1] < ts[i] <= ts[i - 1] + 60.0
  }

  /** The memory after a run of ticks. */
  ghost function MemoryAfter(cfg: Config, cal: int -> Clock, ts: seq<real>): Fired {
    if ts == [] then {}
    else
      var now := cal(MinuteOf(ts[|ts| - 1]));
      Prune(Attempts(cfg, now, MemoryAfter(cfg, cal, ts[..|ts| - 1]), |cfg.rules|).1, now)
  }

  /** What the last tick of a run attempts. */
  ghost function LastTick(cfg: Config, cal: int -> Clock, ts: seq<real>): seq<Attempt>
    requires ts != []
  {
    Attempts(cfg, cal(MinuteOf(ts[|ts| - 1])), MemoryAfter(cfg, cal, ts[..|ts| - 1]), |cfg.rules|).0
  }

  /** How often a preset is attempted during a minute of a run. */
  ghost function TimesAttempted(cfg: Config, cal: int -> Clock, ts: seq<real>, minute: int, preset: string): nat {
    if ts == [] then 0
    else
      var now := if MinuteOf(ts[|ts| - 1]) == minute then Count(LastTick(cfg, cal, ts), preset) else 0;
      TimesAttempted(cfg, cal, ts[..|ts| - 1], minute, preset) + now
  }

  /** The interval between ticks: out-of-range or missing settings fall back to 30 seconds. */
  function CheckInterval(setting: Option<real>): (seconds: real)
    ensures 1.0 <= seconds <= 30.0
    ensures setting.Some? && 1.0 <= setting.value <= 30.0 ==> seconds == setting.value
    ensures setting.None? || setting.value < 1.0 || setting.value > 30.0 ==> seconds == 30.0
  {
    if setting.Some? && 1.0 <= setting.value <= 30.0 then setting.value else 30.0
  }

  /** The loop of `run_scheduler` over the times of its ticks: what each tick attempts, reports and remembers are
    * those of the run; `raises(i)(j)` says whether attempt `j` of tick `i` raises. */
  method RunScheduler(memory: Memory, cfg: Config, cal: int -> Clock, ts: seq<real>, raises: nat -> (nat -> bool))
    returns (fired: seq<seq<(string, string)>>, ghost attempts: seq<seq<Attempt>>)
    requires memory.lastTriggered == {}
    modifies memory
    ensures memory.lastTriggered == MemoryAfter(cfg, cal, ts)
    ensures |attempts| == |ts| && forall i :: 0 <= i < |ts| ==> attempts[i] == LastTick(cfg, cal, ts[..i + 1])
    ensures |fired| == |ts| && forall i :: 0 <= i < |ts| ==> fired[i] == Succeeded(attempts[i], raises(i))
  {
    hide Attempts, Prune, Succeeded, MinuteOf;
    fired, attempts := [], [];
    for i := 0 to |ts|
      invariant memory.lastTriggered == MemoryAfter(cfg, cal, ts[..i])
      invariant |attempts| == i && forall j :: 0 <= j < i ==> attempts[j] == LastTick(cfg, cal, ts[..j + 1])
      invariant |fired| == i && forall j :: 0 <= j < i ==> fired[j] == Succeeded(attempts[j], raises(j))
    {
      assert ts[..i + 1][..i] == ts[..i];
      var applied, done := memory.RunDueRules(cfg, cal(MinuteOf(ts[i])), raises(i));
      fired, attempts := fired + [applied], attempts + [done];
    }
    assert ts[..|ts|] == ts;
  }

  lemma MinutesAdvance(a: real, b: real)
    requires a < b <= a + 60.0
    ensures MinuteOf(a) <= MinuteOf(b) <= MinuteOf(a) + 1
  {
    assert a / 60.0 < b / 60.0 <= a / 60.0 + 1.0;
  }

  /** Before its minute begins a preset is never attempted; from the first tick of the minute on it has been
    * attempted exactly once if it is due, and the memory holds exactly the presets due in the last tick's minute. */
  lemma {:induction false} RunAttempts(cfg: Config, cal: int -> Clock, ts: seq<real>, minute: int, preset: string)
    requires Calendar(cal) && Ticks(ts) && ts != []
    ensures var last := MinuteOf(ts[|ts| - 1]);
            var due := DuePreset(cfg, cal(minute), preset, |cfg.rules|);
            && ((KeyOf(cal(last)), preset) in MemoryAfter(cfg, cal, ts) <==> DuePreset(cfg, cal(last), preset, |cfg.rules|))
            && (forall k :: k in MemoryAfter(cfg, cal, ts) ==> k.0 == KeyOf(cal(last)))
            && (MinuteOf(ts[0]) <= minute <= last ==>
                  TimesAttempted(cfg, cal, ts, minute, preset) == if due then 1 else 0)
            && (minute > last ==> TimesAttempted(cfg, cal, ts, minute, preset) == 0)
            && MinuteOf(ts[0]) <= last
  {
    hide Attempts, DuePreset, KeyOf, Count;
    var init, t := ts[..|ts| - 1], ts[|ts| - 1];
    var now := cal(MinuteOf(t));
    TickAttempts(cfg, now, MemoryAfter(cfg, cal, init), |cfg.rules|, preset);
    if init != [] {
      RunAttempts(cfg, cal, init, minute, preset);
      assert ts[|ts| - 2] < t <= ts[|ts| - 2] + 60.0;
      MinutesAdvance(ts[|ts| - 2], t);
      var before := MinuteOf(ts[|ts| - 2]);
      assert init[|init| - 1] == ts[|ts| - 2] && init[0] == ts[0];
      if MinuteOf(t) == before + 1 {
        assert KeyOf(cal(before)) != KeyOf(cal(before + 1));
      }
    }
  }

  /** Exactly once: in every minute from the first tick's to the last tick's, each preset with a due rule is
    * attempted exactly once and no other preset is, whether or not other presets raise. */
  lemma ExactlyOnce(cfg: Config, cal: int -> Clock, ts: seq<real>, minute: int, preset: string)
    requires Calendar(cal) && Ticks(ts) && ts != []
    requires MinuteOf(ts[0]) <= minute <= MinuteOf(ts[|ts| - 1])
    ensures TimesAttempted(cfg, cal, ts, minute, preset)
         == if DuePreset(cfg, cal(minute), preset, |cfg.rules|) then 1 else 0
  {
    RunAttempts(cfg, cal, ts, minute, preset);
  }

  /** Every attempt of every tick comes from the first due rule naming its preset and goes to its target. */
  lemma AttemptsByFirstRule(cfg: Config, cal: int -> Clock, ts: seq<real>, j: nat)
    requires ts != [] && j < |LastTick(cfg, cal, ts)|
    ensures ByFirstDueRule(cfg, cal(MinuteOf(ts[|ts| - 1])), LastTick(cfg, cal, ts)[j])
  {
    assert LastTick(cfg, cal, ts)
        == Attempts(cfg, cal(MinuteOf(ts[|ts| - 1])), MemoryAfter(cfg, cal, ts[..|ts| - 1]), |cfg.rules|).0;
    AttemptsAreFirst(cfg, cal(MinuteOf(ts[|ts| - 1])), MemoryAfter(cfg, cal, ts[..|ts| - 1]), |cfg.rules|);
  }

  /** The bound on the spacing of ticks is needed: a minute without a tick loses its rules. */
  lemma {:induction false} NoTickNoAttempt(cfg: Config, cal: int -> Clock, ts: seq<real>, minute: int, preset: string)
    requires forall i :: 0 <= i < |ts| ==> MinuteOf(ts[i]) != minute
    ensures TimesAttempted(cfg, cal, ts, minute, preset) == 0
  {
    hide MinuteOf;
    if ts != [] {
      assert MinuteOf(ts[|ts| - 1]) != minute;
      NoTickNoAttempt(cfg, cal, ts[..|ts| - 1], minute, preset);
    }
  }

  // ---- which minutes, which targets -----------------------------------------------------

  /** The rule applies this preset at this minute: its time is this hour and minute, and it names today or, naming no
    * days, applies on every day of the week. */
  predicate Asks(rule: Rule, now: Clock, preset: string) {
    && rule.action == "apply_preset" && rule.presetName == preset && preset != ""
    && rule.time == At(now.hour, now.minute)
    && (now.wday in rule.days ||
        (|rule.days| == 0 && (now.wday == "mon" || now.wday == "tue" || now.wday == "wed" || now.wday == "thu" ||
                              now.wday == "fri" || now.wday == "sat" || now.wday == "sun")))
  }

  lemma DueMeansAsked(rule: Rule, now: Clock, preset: string)
    ensures Due(rule, now) && rule.presetName == preset <==> Asks(rule, now, preset)
  {
  }

  /** In every minute of a run exactly the presets some rule asks for are attempted, each once. */
  lemma AttemptedWhenAsked(cfg: Config, cal: int -> Clock, ts: seq<real>, minute: int, preset: string)
    requires Calendar(cal) && Ticks(ts) && ts != []
    requires MinuteOf(ts[0]) <= minute <= MinuteOf(ts[|ts| - 1])
    ensures TimesAttempted(cfg, cal, ts, minute, preset)
         == if exists i :: 0 <= i < |cfg.rules| && Asks(cfg.rules[i], cal(minute), preset) then 1 else 0
  {
    hide Due, Asks, TimesAttempted, Calendar, Ticks, MinuteOf;
    ExactlyOnce(cfg, cal, ts, minute, preset);
    var now := cal(minute);
    forall i | 0 <= i < |cfg.rules|
      ensures Due(cfg.rules[i], now) && cfg.rules[i].presetName == preset <==> Asks(cfg.rules[i], now, preset)
    {
      DueMeansAsked(cfg.rules[i], now, preset);
    }
    if DuePreset(cfg, now, preset, |cfg.rules|) {
      var i :| 0 <= i < |cfg.rules| && Due(cfg.rules[i], now) && cfg.rules[i].presetName == preset;
      assert Asks(cfg.rules[i], now, preset);
    }
  }

  /** Preset `k` is the first of this name. */
  ghost predicate FirstNamed(presets: seq<Preset>, name: string, k: nat) {
    k < |presets| && presets[k].name == name && forall i :: 0 <= i < k ==> presets[i].name != name
  }

  /** Where an attempt goes: to the target its rule names, else to the one the first preset of that name names, else to
    * the default. */
  ghost predicate GoesTo(target: string, rule: Rule, presets: seq<Preset>, default: string) {
    && (rule.target != "" ==> target == rule.target)
    && (rule.target == "" && (forall i :: 0 <= i < |presets| ==> presets[i].name != rule.presetName) ==> target == default)
    && (forall k: nat :: rule.target == "" && FirstNamed(presets, rule.presetName, k) ==>
          target == if presets[k].target != "" then presets[k].target else default)
  }

  lemma {:induction false} FirstPresetDecides(presets: seq<Preset>, name: string)
    ensures (forall i :: 0 <= i < |presets| ==> presets[i].name != name) ==> PresetTarget(presets, name) == ""
    ensures forall k: nat :: FirstNamed(presets, name, k) ==> PresetTarget(presets, name) == presets[k].target
  {
    if presets != [] {
      FirstPresetDecides(presets[1..], name);
      forall k: nat | FirstNamed(presets, name, k) ensures PresetTarget(presets, name) == presets[k].target {
        if k > 0 {
          assert presets[0].name != name;
          assert FirstNamed(presets[1..], name, k - 1);
        }
      }
    }
  }

  lemma TargetGoes(rule: Rule, presets: seq<Preset>, default: string)
    ensures GoesTo(Target(rule, presets, default), rule, presets, default)
  {
    hide PresetTarget;
    FirstPresetDecides(presets, rule.presetName);
  }

  /** Every attempt of a run is asked for by its rule, by no earlier rule, and goes where that rule sends it. */
  lemma AttemptsGoWhereAsked(cfg: Config, cal: int -> Clock, ts: seq<real>, j: nat)
    requires ts != [] && j < |LastTick(cfg, cal, ts)|
    ensures var a, now := LastTick(cfg, cal, ts)[j], cal(MinuteOf(ts[|ts| - 1]));
            && a.rule < |cfg.rules| && Asks(cfg.rules[a.rule], now, a.preset)
            && (forall i :: 0 <= i < a.rule ==> !Asks(cfg.rules[i], now, a.preset))
            && GoesTo(a.target, cfg.rules[a.rule], cfg.presets, cfg.defaultTarget)
  {
    hide Due, Asks, Target, GoesTo, LastTick, MinuteOf;
    AttemptsByFirstRule(cfg, cal, ts, j);
    var a, now := LastTick(cfg, cal, ts)[j], cal(MinuteOf(ts[|ts| - 1]));
    DueMeansAsked(cfg.rules[a.rule], now, a.preset);
    TargetGoes(cfg.rules[a.rule], cfg.presets, cfg.defaultTarget);
    forall i | 0 <= i < a.rule ensures !Asks(cfg.rules[i], now, a.preset) {
      DueMeansAsked(cfg.rules[i], now, a.preset);
    }
  }

  /** The reports are those of the attempts at these places: exactly the ones that did not raise, in order. */
  ghost predicate Reports(fired: seq<(string, string)>, done: seq<Attempt>, raises: nat -> bool, at: seq<nat>) {
    && |at| == |fired|
    && (forall k :: 0 <= k < |at| ==> at[k] < |done| && !raises(at[k]))
    && (forall k :: 0 <= k < |at| ==> at[k] < |done| && fired[k] == (done[at[k]].preset, done[at[k]].target))
    && (forall j, k :: 0 <= j < k < |at| ==> at[j] < at[k])
    && (forall i :: 0 <= i < |done| && !raises(i) ==> i in at)
  }

  lemma ReportsSnoc(fired: seq<(string, string)>, done: seq<Attempt>, raises: nat -> bool, at: seq<nat>, a: Attempt)
    requires Reports(fired, done, raises, at)
    ensures if raises(|done|) then Reports(fired, done + [a], raises, at)
            else Reports(fired + [(a.preset, a.target)], done + [a], raises, at + [|done|])
  {
  }

  /** What a tick reports: exactly its attempts that did not raise, in order. */
  lemma {:induction false} ReportedAre(done: seq<Attempt>, raises: nat -> bool) returns (at: seq<nat>)
    ensures Reports(Succeeded(done, raises), done, raises, at)
  {
    if done == [] {
      at := [];
    } else {
      hide Reports;
      var n := |done| - 1;
      at := ReportedAre(done[..n], raises);
      ReportsSnoc(Succeeded(done[..n], raises), done[..n], raises, at, done[n]);
      assert done[..n] + [done[n]] == done;
      assert Succeeded(done[..n], raises) + [] == Succeeded(done[..n], raises);
      if !raises(n) {
        at := at + [n];
      }
    }
  }
}
