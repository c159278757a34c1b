/** The per-IP fixed-window rate limiter of the web server. */
module RateLimiter {
  import opened Options

  type Ip = string

  /** How many requests a window has seen, and when it opened. */
  datatype Window = Window(count: nat, start: real)

  /** A parsed rate limit; `limit <= 0` switches limiting off. */
  datatype Config = Config(limit: int, windowSec: real)

  datatype Request = Request(ip: Ip, time: real)

  type Store = map<Ip, Window>

  predicate Expired(w: Window, now: real, windowSec: real) {
    now - w.start > windowSec
  }

  /** The window after one more request: the current one, or a fresh one when there is none or it expired. */
  function Bump(w: Option<Window>, now: real, windowSec: real): Window {
    if w.None? || Expired(w.value, now, windowSec) then Window(1, now)
    else Window(w.value.count + 1, w.value.start)
  }

  function Lookup(store: Store, ip: Ip): Option<Window> {
    if ip in store then Some(store[ip]) else None
  }

  function Purge(store: Store, now: real, windowSec: real): Store {
    map ip | ip in store && !Expired(store[ip], now, windowSec) :: store[ip]
  }

  /** One request: the store after it. */
  function Step(store: Store, r: Request, cfg: Config, maxTracked: nat): Store {
    var kept := if |store| > maxTracked then Purge(store, r.time, cfg.windowSec) else store;
    kept[r.ip := Bump(Lookup(kept, r.ip), r.time, cfg.windowSec)]
  }

  /** The server's store, updated in place by every request. */
  class Limiter {
    var store: Store
    const maxTracked: nat

    constructor (maxTracked: nat)
      ensures store == map[] && this.maxTracked == maxTracked
    {
      store := map[];
      this.maxTracked := maxTracked;
    }

    method Exceeded(ip: Ip, now: real, cfg: Config) returns (refused: bool)
      modifies this
      ensures cfg.limit <= 0 ==> !refused && store == old(store)
      ensures cfg.limit > 0 ==>
                store == Step(old(store), Request(ip, now), cfg, maxTracked) && refused == (store[ip].count > cfg.limit)
      ensures cfg.limit > 0 ==>
                && (if ip in old(store) && now - old(store)[ip].start <= cfg.windowSec
                    then store[ip] == Window(old(store)[ip].count + 1, old(store)[ip].start)
                    else store[ip] == Window(1, now))
                && (forall k :: k in store && k != ip ==> k in old(store) && store[k] == old(store)[k])
                && (forall k :: k in old(store) && k != ip ==>
                      (k in store <==> |old(store)| <= maxTracked || now - old(store)[k].start <= cfg.windowSec))
    {
      if cfg.limit <= 0 {
        return false;
      }
      if |store| > maxTracked {
        var expired := set k | k in store && Expired(store[k], now, cfg.windowSec);
        while expired != {}
          invariant expired <= old(store).Keys
          invariant forall k :: k in expired ==> Expired(old(store)[k], now, cfg.windowSec)
          invariant store == map k | k in old(store) && (k in expired || !Expired(old(store)[k], now, cfg.windowSec)) :: old(store)[k]
          decreases expired
        {
          var k :| k in expired;
          store := store - {k};
          expired := expired - {k};
        }
        assert store == Purge(old(store), now, cfg.windowSec);
      }
      var count, start := 0, now;
      if ip in store {
        count, start := store[ip].count, store[ip].start;
      }
      if now - start > cfg.windowSec {
        count, start := 0, now;
      }
      count := count + 1;
      store := store[ip := Window(count, start)];
      return count > cfg.limit;
    }
  }

  // ---- whole runs -----------------------------------------------------------------------

  /** The shared store after a run of requests. */
  ghost function Run(rs: seq<Request>, cfg: Config, maxTracked: nat): Store {
    if rs == [] then map[]
    else Step(Run(rs[..|rs| - 1], cfg, maxTracked), rs[|rs| - 1], cfg, maxTracked)
  }

  /** Whether the last request of a run is refused. */
  ghost predicate Refused(rs: seq<Request>, cfg: Config, maxTracked: nat)
    requires rs != []
  {
    Run(rs, cfg, maxTracked)[rs[|rs| - 1].ip].count > cfg.limit
  }

  /** The server answering a run of requests: the store and every decision are those of the run. */
  method Serve(limiter: Limiter, rs: seq<Request>, cfg: Config) returns (refused: seq<bool>)
    requires limiter.store == map[] && cfg.limit > 0
    modifies limiter
    ensures limiter.store == Run(rs, cfg, limiter.maxTracked)
    ensures |refused| == |rs| && forall i :: 0 <= i < |rs| ==> refused[i] == Refused(rs[..i + 1], cfg, limiter.maxTracked)
  {
    refused := [];
    for i := 0 to |rs|
      invariant limiter.store == Run(rs[..i], cfg, limiter.maxTracked)
      invariant |refused| == i
      invariant forall j :: 0 <= j < i ==> refused[j] == Refused(rs[..j + 1], cfg, limiter.maxTracked)
    {
      assert rs[..i + 1][..i] == rs[..i];
      var r := limiter.Exceeded(rs[i].ip, rs[i].time, cfg);
      refused := refused + [r];
    }
    assert rs[..|rs|] == rs;
  }

  ghost predicate InOrder(rs: seq<Request>) {
    forall i, j :: 0 <= i < j < |rs| ==> rs[i].time <= rs[j].time
  }

  ghost predicate Ordered(ts: seq<real>) {
    forall i, j :: 0 <= i < j < |ts| ==> ts[i] <= ts[j]
  }

  /** The times of one client's requests. */
  ghost function Times(rs: seq<Request>, ip: Ip): seq<real> {
    if rs == [] then []
    else Times(rs[..|rs| - 1], ip) + if rs[|rs| - 1].ip == ip then [rs[|rs| - 1].time] else []
  }

  /** The reference: a limiter that serves one client alone and never forgets a window. */
  ghost function Alone(ts: seq<real>, windowSec: real): Option<Window> {
    if ts == [] then None
    else Some(Bump(Alone(ts[..|ts| - 1], windowSec), ts[|ts| - 1], windowSec))
  }

  ghost predicate RefusedAlone(ts: seq<real>, cfg: Config)
    requires ts != []
  {
    Alone(ts, cfg.windowSec).value.count > cfg.limit
  }

  /** The shared store holds the client's reference window, or has forgotten it because it expired. */
  ghost predicate Agrees(store: Store, ip: Ip, w: Option<Window>, now: real, windowSec: real) {
    if ip in store then w == Some(store[ip])
    else w.None? || Expired(w.value, now, windowSec)
  }

  lemma BumpAgrees(store: Store, ip: Ip, w: Option<Window>, now: real, windowSec: real)
    requires Agrees(store, ip, w, now, windowSec)
    ensures Bump(Lookup(store, ip), now, windowSec) == Bump(w, now, windowSec)
  {
  }

  /** Purging and other clients' requests never change what the store says about a client. */
  lemma {:induction false} StoreAgrees(rs: seq<Request>, cfg: Config, maxTracked: nat, ip: Ip, now: real)
    requires InOrder(rs) && (rs != [] ==> rs[|rs| - 1].time <= now)
    ensures Agrees(Run(rs, cfg, maxTracked), ip, Alone(Times(rs, ip), cfg.windowSec), now, cfg.windowSec)
    decreases |rs|
  {
    if rs != [] {
      var init, last := rs[..|rs| - 1], rs[|rs| - 1];
      var ts := Times(init, ip);
      StoreAgrees(init, cfg, maxTracked, ip, last.time);
      if last.ip == ip {
        assert (ts + [last.time])[..|ts|] == ts;
        BumpAgrees(Run(init, cfg, maxTracked), ip, Alone(ts, cfg.windowSec), last.time, cfg.windowSec);
      } else {
        assert Times(rs, ip) == ts;
      }
    }
  }

  /** Every decision is the one the client would get alone, from a store that never evicts: eviction and
    * other clients' traffic are invisible. */
  lemma DecisionsAreIsolated(rs: seq<Request>, cfg: Config, maxTracked: nat)
    requires InOrder(rs) && rs != []
    ensures Times(rs, rs[|rs| - 1].ip) != []
    ensures Refused(rs, cfg, maxTracked) <==> RefusedAlone(Times(rs, rs[|rs| - 1].ip), cfg)
  {
    var last := rs[|rs| - 1];
    StoreAgrees(rs, cfg, maxTracked, last.ip, last.time);
  }

  /** The clients whose reference window is still open. */
  ghost function LiveIps(rs: seq<Request>, now: real, windowSec: real): set<Ip> {
    set r | r in rs && var w := Alone(Times(rs, r.ip), windowSec); w.Some? && !Expired(w.value, now, windowSec) :: r.ip
  }

  lemma {:induction false} StoredWereSeen(rs: seq<Request>, cfg: Config, maxTracked: nat, ip: Ip)
    requires ip in Run(rs, cfg, maxTracked)
    ensures exists r :: r in rs && r.ip == ip
    decreases |rs|
  {
    var init, last := rs[..|rs| - 1], rs[|rs| - 1];
    if last.ip == ip {
      assert last in rs;
    } else {
      StoredWereSeen(init, cfg, maxTracked, ip);
      var r :| r in init && r.ip == ip;
      assert r in rs;
    }
  }

  lemma SubsetSize<T>(a: set<T>, b: set<T>)
    requires a <= b
    ensures |a| <= |b|
  {
    if a != {} {
      var x :| x in a;
      SubsetSize(a - {x}, b - {x});
    }
  }

  /** The store never exceeds the larger of its cap and the number of live windows, plus one. */
  lemma StoreIsBounded(rs: seq<Request>, cfg: Config, maxTracked: nat)
    requires InOrder(rs) && rs != []
    ensures var live := |LiveIps(rs[..|rs| - 1], rs[|rs| - 1].time, cfg.windowSec)|;
            |Run(rs, cfg, maxTracked)| <= (if maxTracked > live then maxTracked else live) + 1
  {
    var init, last := rs[..|rs| - 1], rs[|rs| - 1];
    var store := Run(init, cfg, maxTracked);
    var kept := if |store| > maxTracked then Purge(store, last.time, cfg.windowSec) else store;
    assert Run(rs, cfg, maxTracked).Keys == kept.Keys + {last.ip};
    SizeOfUnion(kept.Keys, last.ip);
    if |store| > maxTracked {
      var live := LiveIps(init, last.time, cfg.windowSec);
      forall ip | ip in kept ensures ip in live {
        StoreAgrees(init, cfg, maxTracked, ip, last.time);
        StoredWereSeen(init, cfg, maxTracked, ip);
      }
      SubsetSize(kept.Keys, live);
    }
  }

  lemma SizeOfUnion<T>(s: set<T>, x: T)
    ensures |s + {x}| <= |s| + 1
  {
    if x in s {
      assert s + {x} == s;
    }
  }

  // ---- how many requests an interval can admit ------------------------------------------

  ghost predicate Within(t: real, a: real, windowSec: real) {
    a <= t <= a + windowSec
  }

  /** How many of one client's requests in the closed interval [a, a + window] are admitted. */
  ghost function Admitted(ts: seq<real>, a: real, cfg: Config): nat {
    if ts == [] then 0
    else
      var counts := Within(ts[|ts| - 1], a, cfg.windowSec) && !RefusedAlone(ts, cfg);
      Admitted(ts[..|ts| - 1], a, cfg) + if counts then 1 else 0
  }

  /** How many of one client's requests fall in the interval. */
  ghost function Requests(ts: seq<real>, a: real, windowSec: real): nat {
    if ts == [] then 0
    else Requests(ts[..|ts| - 1], a, windowSec) + if Within(ts[|ts| - 1], a, windowSec) then 1 else 0
  }

  lemma {:induction false} NoneYet(ts: seq<real>, a: real, cfg: Config)
    requires forall i :: 0 <= i < |ts| ==> ts[i] < a
    ensures Admitted(ts, a, cfg) == 0
  {
    if ts != [] {
      NoneYet(ts[..|ts| - 1], a, cfg);
    }
  }

  /** What a client's window says about an interval, by where the window opened. */
  lemma {:induction false} AdmittedByWindow(ts: seq<real>, a: real, cfg: Config)
    requires Ordered(ts) && ts != [] && cfg.limit > 0 && cfg.windowSec >= 0.0
    ensures var w := Alone(ts, cfg.windowSec).value;
            var n := Admitted(ts, a, cfg);
            var current := if w.count < cfg.limit then w.count else cfg.limit;
            && w.count >= 1 && w.start <= ts[|ts| - 1]
            && (w.start < a ==> n <= current - 1)
            && (a <= w.start <= a + cfg.windowSec ==> n <= cfg.limit - 1 + current)
            && n <= 2 * cfg.limit - 1
  {
    var init, last := ts[..|ts| - 1], ts[|ts| - 1];
    if init != [] {
      AdmittedByWindow(init, a, cfg);
      assert init[|init| - 1] <= last;
    }
    if last < a {
      NoneYet(init, a, cfg);
    }
  }

  /** Any closed interval as long as the window admits at most 2 * limit - 1 requests of one client, whatever
    * else the shared limiter served. */
  lemma IntervalBound(rs: seq<Request>, ip: Ip, a: real, cfg: Config, maxTracked: nat)
    requires InOrder(rs) && cfg.limit > 0 && cfg.windowSec >= 0.0
    ensures AdmittedInRun(rs, ip, a, cfg, maxTracked) <= 2 * cfg.limit - 1
  {
    AdmittedProjects(rs, ip, a, cfg, maxTracked);
    TimesOrdered(rs, ip);
    if Times(rs, ip) != [] {
      AdmittedByWindow(Times(rs, ip), a, cfg);
    }
  }

  /** How many of a client's requests in the interval the shared limiter admitted. */
  ghost function AdmittedInRun(rs: seq<Request>, ip: Ip, a: real, cfg: Config, maxTracked: nat): nat {
    if rs == [] then 0
    else
      var last := rs[|rs| - 1];
      var counts := last.ip == ip && Within(last.time, a, cfg.windowSec) && !Refused(rs, cfg, maxTracked);
      AdmittedInRun(rs[..|rs| - 1], ip, a, cfg, maxTracked) + if counts then 1 else 0
  }

  lemma {:induction false} AdmittedProjects(rs: seq<Request>, ip: Ip, a: real, cfg: Config, maxTracked: nat)
    requires InOrder(rs)
    ensures AdmittedInRun(rs, ip, a, cfg, maxTracked) == Admitted(Times(rs, ip), a, cfg)
    decreases |rs|
  {
    if rs != [] {
      var init, last := rs[..|rs| - 1], rs[|rs| - 1];
      var ts := Times(init, ip);
      AdmittedProjects(init, ip, a, cfg, maxTracked);
      if last.ip == ip {
        DecisionsAreIsolated(rs, cfg, maxTracked);
        assert (ts + [last.time])[..|ts|] == ts;
      } else {
        assert Times(rs, ip) == ts;
      }
    }
  }

  lemma {:induction false} TimesOrdered(rs: seq<Request>, ip: Ip)
    requires InOrder(rs)
    ensures Ordered(Times(rs, ip))
    ensures forall i :: 0 <= i < |Times(rs, ip)| ==> Times(rs, ip)[i] <= rs[|rs| - 1].time
    decreases |rs|
  {
    if rs != [] {
      var init := rs[..|rs| - 1];
      TimesOrdered(init, ip);
      assert init != [] ==> init[|init| - 1].time <= rs[|rs| - 1].time;
    }
  }

  /** No closed interval as long as the window holds more than `limit` of these requests. */
  ghost predicate WellBehaved(ts: seq<real>, cfg: Config) {
    forall a :: Requests(ts, a, cfg.windowSec) <= cfg.limit
  }

  /** A client with at most `limit` requests in every such interval is never refused. */
  lemma WellBehavedIsNeverRefused(rs: seq<Request>, cfg: Config, maxTracked: nat)
    requires InOrder(rs) && rs != [] && cfg.windowSec >= 0.0
    requires WellBehaved(Times(rs, rs[|rs| - 1].ip), cfg)
    ensures !Refused(rs, cfg, maxTracked)
  {
    var ip := rs[|rs| - 1].ip;
    DecisionsAreIsolated(rs, cfg, maxTracked);
    TimesOrdered(rs, ip);
    var ts := Times(rs, ip);
    CountIsRequests(ts, cfg.windowSec);
    assert Requests(ts, Alone(ts, cfg.windowSec).value.start, cfg.windowSec) <= cfg.limit;
  }

  /** The window's count never exceeds the requests in the interval that opens with the window. */
  lemma {:induction false} CountIsRequests(ts: seq<real>, windowSec: real)
    requires Ordered(ts) && ts != [] && windowSec >= 0.0
    ensures var w := Alone(ts, windowSec).value;
            w.start <= ts[|ts| - 1] && w.count <= Requests(ts, w.start, windowSec)
  {
    var init, last := ts[..|ts| - 1], ts[|ts| - 1];
    if init != [] {
      CountIsRequests(init, windowSec);
      assert init[|init| - 1] <= last;
    }
  }

  // ---- the bound is reached -------------------------------------------------------------

  function Times0(n: nat, t: real): seq<real> {
    if n == 0 then [] else Times0(n - 1, t) + [t]
  }

  lemma {:induction false} MoreAtOnce(ts: seq<real>, n: nat, t: real, a: real, cfg: Config)
    requires ts != [] && Within(t, a, cfg.windowSec) && cfg.limit > 0
    requires var w := Alone(ts, cfg.windowSec).value;
             !Expired(w, t, cfg.windowSec) && w.count + n <= cfg.limit
    ensures var w, w' := Alone(ts, cfg.windowSec).value, Alone(ts + Times0(n, t), cfg.windowSec).value;
            w' == Window(w.count + n, w.start) && Admitted(ts + Times0(n, t), a, cfg) == Admitted(ts, a, cfg) + n
  {
    if n == 0 {
      assert ts + Times0(0, t) == ts;
    } else {
      MoreAtOnce(ts, n - 1, t, a, cfg);
      var shorter := ts + Times0(n - 1, t);
      assert ts + Times0(n, t) == shorter + [t];
      assert (shorter + [t])[..|shorter|] == shorter;
    }
  }

  /** The reference times that reach the bound: one request at 0, `limit - 1` as the window closes and `limit` just
    * after. */
  function Worst(cfg: Config): seq<real>
    requires cfg.limit > 0
  {
    var w, n := cfg.windowSec, cfg.limit - 1;
    [0.0] + Times0(n, w) + [2.0 * w] + Times0(n, 2.0 * w)
  }

  lemma WorstAlone(cfg: Config)
    requires cfg.limit > 0 && cfg.windowSec > 0.0
    ensures Admitted(Worst(cfg), cfg.windowSec, cfg) == 2 * cfg.limit - 1
  {
    var w, n := cfg.windowSec, cfg.limit - 1;
    var first := [0.0];
    assert first[..0] == [];
    MoreAtOnce(first, n, w, w, cfg);
    var second := first + Times0(n, w);
    var third := second + [2.0 * w];
    assert third[..|second|] == second;
    assert Alone(third, w).value == Window(1, 2.0 * w);
    MoreAtOnce(third, n, 2.0 * w, w, cfg);
  }

  lemma {:induction false} Times0Are(n: nat, t: real)
    ensures |Times0(n, t)| == n && forall i :: 0 <= i < n ==> Times0(n, t)[i] == t
  {
    if n > 0 {
      Times0Are(n - 1, t);
    }
  }

  lemma WorstIsOrdered(cfg: Config)
    requires cfg.limit > 0 && cfg.windowSec > 0.0
    ensures Ordered(Worst(cfg))
  {
    Times0Are(cfg.limit - 1, cfg.windowSec);
    Times0Are(cfg.limit - 1, 2.0 * cfg.windowSec);
  }

  /** One client's requests at the given times. */
  function From(ip: Ip, ts: seq<real>): seq<Request> {
    if ts == [] then [] else From(ip, ts[..|ts| - 1]) + [Request(ip, ts[|ts| - 1])]
  }

  lemma {:induction false} FromTimes(ip: Ip, ts: seq<real>)
    ensures Times(From(ip, ts), ip) == ts
    ensures |From(ip, ts)| == |ts| && forall i :: 0 <= i < |ts| ==> From(ip, ts)[i] == Request(ip, ts[i])
  {
    if ts != [] {
      var init, last := ts[..|ts| - 1], ts[|ts| - 1];
      FromTimes(ip, init);
      var rs := From(ip, init) + [Request(ip, last)];
      assert rs[..|rs| - 1] == From(ip, init);
      assert init + [last] == ts;
    }
  }

  /** The bound is tight for every limit and window: an ordered run of one client puts 2 * limit - 1 admitted
    * requests into the interval [window, 2 * window] of the shared limiter. */
  lemma BoundIsReached(ip: Ip, cfg: Config, maxTracked: nat)
    requires cfg.limit > 0 && cfg.windowSec > 0.0
    ensures InOrder(From(ip, Worst(cfg)))
    ensures AdmittedInRun(From(ip, Worst(cfg)), ip, cfg.windowSec, cfg, maxTracked) == 2 * cfg.limit - 1
  {
    hide Worst, From, Times, Admitted, AdmittedInRun;
    var rs := From(ip, Worst(cfg));
    FromTimes(ip, Worst(cfg));
    WorstIsOrdered(cfg);
    AdmittedProjects(rs, ip, cfg.windowSec, cfg, maxTracked);
    WorstAlone(cfg);
  }
}
