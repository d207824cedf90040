/** The per-IP token-bucket limiter of anmates-api/middleware/ratelimit.go and its reaper. Times are
    real seconds; the token bucket itself is the library's: tokens refill at `rps` up to `burst`. */
module RateLimit {
  type Ip = string

  const IDLE: real := 600.0

  /** A visitor's bucket; it was last used when the visitor was last seen. */
  datatype Visitor = Visitor(tokens: real, lastSeen: real)

  datatype Config = Config(rps: real, burst: nat)

  function Min(a: real, b: real): real { if a <= b then a else b }

  function NewVisitor(c: Config, now: real): Visitor { Visitor(c.burst as real, now) }

  /** Tokens that flow into a bucket over a time span. */
  function Accrued(c: Config, span: real): real { span * c.rps }

  /** Tokens available at `now`. */
  function Available(c: Config, v: Visitor, now: real): real {
    Min(c.burst as real, v.tokens + Accrued(c, now - v.lastSeen))
  }

  predicate Allows(c: Config, v: Visitor, now: real) { Available(c, v, now) >= 1.0 }

  function Use(c: Config, v: Visitor, now: real): Visitor {
    Visitor(Available(c, v, now) - if Allows(c, v, now) then 1.0 else 0.0, now)
  }

  type Visitors = map<Ip, Visitor>

  function GetOrCreate(c: Config, vs: Visitors, ip: Ip, now: real): Visitor {
    if ip in vs then vs[ip] else NewVisitor(c, now)
  }

  /** One request: the visitors afterwards and whether it is let through. */
  function Request(c: Config, vs: Visitors, ip: Ip, now: real): (Visitors, bool) {
    var v := GetOrCreate(c, vs, ip, now);
    (vs[ip := Use(c, v, now)], Allows(c, v, now))
  }

  /** The visitors without those last seen before `cutoff`. */
  function Reap(vs: Visitors, cutoff: real): Visitors {
    map ip | ip in vs && !(vs[ip].lastSeen < cutoff) :: vs[ip]
  }

  class RateLimit {
    const config: Config
    var visitors: Visitors

    constructor (rps: real, burst: nat)
      ensures config == Config(rps, burst) && visitors == map[]
    {
      config := Config(rps, burst);
      visitors := map[];
    }

    method Handle(ip: Ip, now: real) returns (allowed: bool)
      modifies this
      ensures (visitors, allowed) == Request(config, old(visitors), ip, now)
      ensures visitors == old(visitors)[ip := visitors[ip]] && visitors[ip].lastSeen == now
      ensures ip !in old(visitors) ==>
        && (allowed <==> config.burst >= 1)
        && visitors[ip].tokens == config.burst as real - if allowed then 1.0 else 0.0
      ensures ip in old(visitors) ==>
        var refilled := old(visitors)[ip].tokens + (now - old(visitors)[ip].lastSeen) * config.rps;
        var tokens := if refilled <= config.burst as real then refilled else config.burst as real;
        && (allowed <==> tokens >= 1.0)
        && visitors[ip].tokens == tokens - if allowed then 1.0 else 0.0
    {
      if ip !in visitors {
        AccruedZero(config, now);
        visitors := visitors[ip := Visitor(config.burst as real, now)];
      }
      var v := visitors[ip];
      var tokens := Min(config.burst as real, v.tokens + Accrued(config, now - v.lastSeen));
      allowed := tokens >= 1.0;
      if allowed {
        tokens := tokens - 1.0;
      }
      visitors := visitors[ip := Visitor(tokens, now)];
      assert visitors == old(visitors)[ip := Visitor(tokens, now)];
    }

    /** One tick of the reaper. */
    method ReapIdle(now: real)
      modifies this
      ensures visitors == Reap(old(visitors), now - IDLE)
      ensures forall ip :: ip in visitors <==> ip in old(visitors) && old(visitors)[ip].lastSeen >= now - 600.0
      ensures forall ip :: ip in visitors ==> visitors[ip] == old(visitors)[ip]
    {
      var cutoff := now - IDLE;
      var todo := visitors.Keys;
      while todo != {}
        invariant todo <= old(visitors).Keys
        invariant visitors == map ip | ip in old(visitors) && (ip in todo || !(old(visitors)[ip].lastSeen < cutoff)) :: old(visitors)[ip]
        decreases todo
      {
        var ip :| ip in todo;
        if visitors[ip].lastSeen < cutoff {
          visitors := visitors - {ip};
        }
        todo := todo - {ip};
      }
    }
  }

  // ---- Traces ------------------------------------------------------------------------------

  /** Requests, and deletions of single stale entries at arbitrary moments: the reaper compares with
      a cutoff taken at its tick, at least IDLE before the deletion. */
  datatype Event = Hit(ip: Ip, at: real) | Drop(ip: Ip, cutoff: real, at: real)

  function TimeOf(e: Event): real { e.at }

  ghost predicate Legal(es: seq<Event>) {
    && (forall i, j :: 0 <= i < j < |es| ==> TimeOf(es[i]) <= TimeOf(es[j]))
    && (forall i :: 0 <= i < |es| && es[i].Drop? ==> es[i].cutoff <= es[i].at - IDLE)
  }

  function Step(c: Config, vs: Visitors, e: Event): Visitors {
    match e
    case Hit(ip, at) => Request(c, vs, ip, at).0
    case Drop(ip, cutoff, _) => if ip in vs && vs[ip].lastSeen < cutoff then vs - {ip} else vs
  }

  /** The visitors after a trace; `reaping` says whether deletions happen. */
  function After(c: Config, es: seq<Event>, reaping: bool): Visitors
    decreases |es|
  {
    if es == [] then map[]
    else
      var before := After(c, es[..|es| - 1], reaping);
      var e := es[|es| - 1];
      if e.Drop? && !reaping then before else Step(c, before, e)
  }

  /** Whether the i-th event is a request that is let through. */
  function Admits(c: Config, es: seq<Event>, i: nat, reaping: bool): bool
    requires i < |es|
  {
    es[i].Hit? && Request(c, After(c, es[..i], reaping), es[i].ip, es[i].at).1
  }

  lemma {:induction false} AfterJoin(c: Config, es: seq<Event>, more: seq<Event>, reaping: bool)
    requires forall e :: e in more ==> e.Drop?
    ensures !reaping ==> After(c, es + more, reaping) == After(c, es, reaping)
    ensures more != [] ==>
      After(c, es + more, true) == Step(c, After(c, es + more[..|more| - 1], true), more[|more| - 1])
    decreases |more|
  {
    if more == [] {
      assert es + more == es;
    } else {
      var n := |more| - 1;
      assert (es + more)[..|es + more| - 1] == es + more[..n] && (es + more)[|es + more| - 1] == more[n];
      AfterJoin(c, es, more[..n], reaping);
    }
  }

  /** The deletions of one tick, entry by entry in some order. */
  function Tick(ips: seq<Ip>, now: real): seq<Event> {
    seq(|ips|, i requires 0 <= i < |ips| => Drop(ips[i], now - 600.0, now))
  }

  lemma {:induction false} TickDrops(c: Config, es: seq<Event>, ips: seq<Ip>, now: real)
    ensures forall ip :: ip in After(c, es + Tick(ips, now), true) <==>
      ip in After(c, es, true) && (ip in ips ==> After(c, es, true)[ip].lastSeen >= now - 600.0)
    ensures forall ip :: ip in After(c, es + Tick(ips, now), true) ==>
      After(c, es + Tick(ips, now), true)[ip] == After(c, es, true)[ip]
    decreases |ips|
  {
    hide After;
    if ips == [] {
      assert es + Tick(ips, now) == es;
    } else {
      var n := |ips| - 1;
      TickDrops(c, es, ips[..n], now);
      assert Tick(ips, now)[..n] == Tick(ips[..n], now);
      assert ips == ips[..n] + [ips[n]];
      AfterJoin(c, es, Tick(ips, now), true);
    }
  }

  lemma {:induction false} Listed(ips: set<Ip>) returns (list: seq<Ip>)
    ensures forall ip :: ip in list <==> ip in ips
  {
    if ips == {} {
      list := [];
    } else {
      var ip :| ip in ips;
      var rest := Listed(ips - {ip});
      list := [ip] + rest;
    }
  }

  /** One tick of the reaper, behind any trace, is a legal sequence of deletions: what is proved of
      traces holds of it. */
  lemma TickIsTrace(c: Config, es: seq<Event>, now: real) returns (ticked: seq<Event>)
    requires Legal(es) && forall i :: 0 <= i < |es| ==> TimeOf(es[i]) <= now
    ensures Legal(ticked) && es <= ticked && forall i :: |es| <= i < |ticked| ==> ticked[i].Drop? && ticked[i].at == now
    ensures After(c, ticked, true) == Reap(After(c, es, true), now - 600.0)
    ensures After(c, ticked, false) == After(c, es, false)
  {
    var ips := Listed(After(c, es, true).Keys);
    ticked := es + Tick(ips, now);
    TickDrops(c, es, ips, now);
    AfterJoin(c, es, Tick(ips, now), false);
  }

  // ---- Arithmetic of refilling -------------------------------------------------------------

  lemma AccruedZero(c: Config, t: real)
    ensures Accrued(c, t - t) == 0.0
  {
  }

  lemma AccruedIs(c: Config, span: real)
    ensures Accrued(c, span) == span * c.rps
  {
  }

  lemma AccruedAdds(c: Config, a: real, b: real)
    ensures Accrued(c, a) + Accrued(c, b) == Accrued(c, a + b)
  {
  }

  lemma AccruedGrows(c: Config, a: real, b: real)
    requires c.rps >= 0.0 && a <= b
    ensures Accrued(c, a) <= Accrued(c, b)
    ensures a == 0.0 ==> Accrued(c, a) == 0.0
  {
  }

  // ---- Reaping is unobservable -------------------------------------------------------------

  ghost predicate Sane(c: Config, vs: Visitors, now: real) {
    forall ip :: ip in vs ==> 0.0 <= vs[ip].tokens <= c.burst as real && vs[ip].lastSeen <= now
  }

  lemma Refills(c: Config, v: Visitor, now: real)
    requires c.rps >= 0.0 && Accrued(c, IDLE) >= c.burst as real && v.tokens >= 0.0 && now - v.lastSeen >= IDLE
    ensures Available(c, v, now) == c.burst as real
  {
    hide Accrued;
    AccruedGrows(c, IDLE, now - v.lastSeen);
  }

  lemma UseIsSane(c: Config, v: Visitor, now: real)
    requires c.rps >= 0.0 && 0.0 <= v.tokens <= c.burst as real && v.lastSeen <= now
    ensures 0.0 <= Use(c, v, now).tokens <= c.burst as real && 0.0 <= Available(c, v, now) <= c.burst as real
  {
    hide Accrued;
    AccruedGrows(c, 0.0, now - v.lastSeen);
  }

  lemma {:induction false} StaysSane(c: Config, es: seq<Event>, reaping: bool, now: real)
    requires c.rps >= 0.0 && Legal(es) && (forall i :: 0 <= i < |es| ==> TimeOf(es[i]) <= now)
    ensures Sane(c, After(c, es, reaping), now)
    decreases |es|
  {
    hide Accrued;
    if es != [] {
      var n := |es| - 1;
      StaysSane(c, es[..n], reaping, TimeOf(es[n]));
      var e := es[n];
      assert TimeOf(e) <= now;
      if e.Hit? {
        UseIsSane(c, GetOrCreate(c, After(c, es[..n], reaping), e.ip, e.at), e.at);
      }
    }
  }

  /** What the reaping limiter has forgotten is a full bucket. */
  ghost predicate Agree(c: Config, kept: Visitors, all: Visitors, now: real) {
    && kept.Keys <= all.Keys
    && (forall ip :: ip in kept ==> kept[ip] == all[ip])
    && (forall ip :: ip in all && ip !in kept ==> all[ip].lastSeen < now - IDLE)
  }

  lemma RequestAgrees(c: Config, kept: Visitors, all: Visitors, ip: Ip, now: real)
    requires c.rps >= 0.0 && Accrued(c, IDLE) >= c.burst as real
    requires Agree(c, kept, all, now) && Sane(c, all, now)
    ensures Request(c, kept, ip, now).1 == Request(c, all, ip, now).1
    ensures Agree(c, Request(c, kept, ip, now).0, Request(c, all, ip, now).0, now)
  {
    hide Accrued;
    if ip in all && ip !in kept {
      Refills(c, all[ip], now);
    }
    AccruedZero(c, now);
  }

  lemma {:induction false} ReapingAgrees(c: Config, es: seq<Event>, now: real)
    requires c.rps >= 0.0 && Accrued(c, IDLE) >= c.burst as real
    requires Legal(es) && (forall i :: 0 <= i < |es| ==> TimeOf(es[i]) <= now)
    ensures Agree(c, After(c, es, true), After(c, es, false), now)
    decreases |es|
  {
    hide Accrued;
    if es != [] {
      var n := |es| - 1;
      var e := es[n];
      assert TimeOf(e) <= now;
      ReapingAgrees(c, es[..n], e.at);
      StaysSane(c, es[..n], false, e.at);
      if e.Hit? {
        RequestAgrees(c, After(c, es[..n], true), After(c, es[..n], false), e.ip, e.at);
      }
    }
  }

  ghost predicate Unobservable(c: Config) {
    forall es, i :: Legal(es) && 0 <= i < |es| ==> Admits(c, es, i, true) == Admits(c, es, i, false)
  }

  /** If an idle bucket is full again by the time it may be deleted, deletion never changes a
      decision. */
  lemma ReapingIsUnobservable(c: Config, es: seq<Event>, i: nat)
    requires c.rps >= 0.0 && Accrued(c, IDLE) >= c.burst as real
    requires Legal(es) && i < |es|
    ensures Admits(c, es, i, true) == Admits(c, es, i, false)
  {
    hide Accrued;
    if es[i].Hit? {
      ReapingAgrees(c, es[..i], es[i].at);
      StaysSane(c, es[..i], false, es[i].at);
      RequestAgrees(c, After(c, es[..i], true), After(c, es[..i], false), es[i].ip, es[i].at);
    }
  }

  // ---- The condition is exact --------------------------------------------------------------

  /** A bucket after n requests at one instant. */
  function Drained(c: Config, v: Visitor, n: nat, at: real): Visitor {
    if n == 0 then v else Use(c, Drained(c, v, n - 1, at), at)
  }

  /** A new bucket is used up token by token. */
  lemma {:induction false} DrainsNew(c: Config, n: nat, at: real)
    requires n <= c.burst
    ensures Drained(c, NewVisitor(c, at), n, at) == Visitor((c.burst - n) as real, at)
    ensures n < c.burst ==> Allows(c, Drained(c, NewVisitor(c, at), n, at), at)
  {
    hide Accrued;
    AccruedZero(c, at);
    if n > 0 {
      DrainsNew(c, n - 1, at);
    }
  }

  /** A bucket that holds less than `burst` tokens runs dry before the last of `burst` requests. */
  lemma {:induction false} DrainsShort(c: Config, v: Visitor, n: nat, at: real)
    requires n < c.burst && Available(c, v, at) < c.burst as real
    ensures Available(c, Drained(c, v, n, at), at) < (c.burst - n) as real
  {
    hide Accrued;
    AccruedZero(c, at);
    if n > 0 {
      DrainsShort(c, v, n - 1, at);
    }
  }

  /** `n` more requests of one address at one instant. */
  function Flood(es: seq<Event>, ip: Ip, n: nat, at: real): seq<Event> { es + seq(n, _ => Hit(ip, at)) }

  lemma FloodPrefix(es: seq<Event>, ip: Ip, n: nat, k: nat, at: real)
    requires k < n
    ensures var f := Flood(es, ip, n, at);
      |f| == |es| + n && f[|es| + k] == Hit(ip, at) && f[..|es| + k] == Flood(es, ip, k, at)
  {
  }

  lemma {:induction false} AfterFlood(c: Config, es: seq<Event>, ip: Ip, n: nat, at: real, reaping: bool)
    ensures GetOrCreate(c, After(c, Flood(es, ip, n, at), reaping), ip, at) ==
            Drained(c, GetOrCreate(c, After(c, es, reaping), ip, at), n, at)
  {
    hide Use, Drained, GetOrCreate;
    if n == 0 {
      assert Flood(es, ip, 0, at) == es;
      DrainStep(c, GetOrCreate(c, After(c, es, reaping), ip, at), 0, at);
    } else {
      AfterFlood(c, es, ip, n - 1, at, reaping);
      FloodPrefix(es, ip, n, n - 1, at);
      hide Flood;
      DrainStep(c, GetOrCreate(c, After(c, es, reaping), ip, at), n, at);
      JustUsed(c, After(c, Flood(es, ip, n - 1, at), reaping), ip, at);
    }
  }

  lemma DrainStep(c: Config, v: Visitor, n: nat, at: real)
    ensures Drained(c, v, n, at) == if n == 0 then v else Use(c, Drained(c, v, n - 1, at), at)
  {
  }

  lemma JustUsed(c: Config, vs: Visitors, ip: Ip, at: real)
    ensures GetOrCreate(c, Request(c, vs, ip, at).0, ip, at) == Use(c, GetOrCreate(c, vs, ip, at), at)
  {
  }

  /** What a flood's requests are told. */
  lemma FloodAnswers(c: Config, es: seq<Event>, ip: Ip, n: nat, k: nat, at: real, reaping: bool)
    requires k < n
    ensures |Flood(es, ip, n, at)| == |es| + n
    ensures Admits(c, Flood(es, ip, n, at), |es| + k, reaping) ==
            Allows(c, Drained(c, GetOrCreate(c, After(c, es, reaping), ip, at), k, at), at)
  {
    hide Accrued, Flood, Allows, Drained, After, GetOrCreate;
    FloodPrefix(es, ip, n, k, at);
    AfterFlood(c, es, ip, k, at, reaping);
  }

  /** An address the limiter does not know gets a whole burst at once. */
  lemma FloodOnNew(c: Config, es: seq<Event>, ip: Ip, k: nat, at: real, reaping: bool)
    requires ip !in After(c, es, reaping) && k < c.burst
    ensures Admits(c, Flood(es, ip, c.burst, at), |es| + k, reaping)
    ensures !Admits(c, Flood(es, ip, c.burst + 1, at), |es| + c.burst, reaping)
  {
    hide Accrued, Flood, After, Drained, Admits;
    FloodAnswers(c, es, ip, c.burst, k, at, reaping);
    FloodAnswers(c, es, ip, c.burst + 1, c.burst, at, reaping);
    DrainsNew(c, k, at);
    DrainsNew(c, c.burst, at);
    AccruedZero(c, at);
  }

  /** A flood at time 0, and a deletion at `at`. */
  function Telltale(c: Config, ip: Ip, at: real): seq<Event> { Flood([], ip, c.burst, 0.0) + [Drop(ip, at - IDLE, at)] }

  lemma AfterTelltale(c: Config, ip: Ip, at: real)
    requires c.burst > 0 && at > IDLE
    ensures GetOrCreate(c, After(c, Telltale(c, ip, at), true), ip, at) == NewVisitor(c, at)
    ensures GetOrCreate(c, After(c, Telltale(c, ip, at), false), ip, at) == Visitor(0.0, 0.0)
  {
    var first := Flood([], ip, c.burst, 0.0);
    var es := first + [Drop(ip, at - IDLE, at)];
    assert es[..|es| - 1] == first && es[|es| - 1] == Drop(ip, at - IDLE, at);
    hide Accrued, Flood, Drained;
    LastSeenInFlood(c, ip, true);
    LastSeenInFlood(c, ip, false);
  }

  lemma LastSeenInFlood(c: Config, ip: Ip, reaping: bool)
    requires c.burst > 0
    ensures (var vs := After(c, Flood([], ip, c.burst, 0.0), reaping); ip in vs && vs[ip] == Visitor(0.0, 0.0))
  {
    FloodPrefix([], ip, c.burst, c.burst - 1, 0.0);
    hide Accrued, Flood, Drained, Use;
    assert After(c, [], reaping) == map[];
    AfterFlood(c, [], ip, c.burst, 0.0, reaping);
    DrainsNew(c, c.burst, 0.0);
  }

  lemma TelltaleIsLegal(c: Config, ip: Ip, at: real)
    requires at > IDLE
    ensures Legal(Flood(Telltale(c, ip, at), ip, c.burst, at))
  {
  }

  /** If a bucket need not be full again when it may be deleted, some trace tells the difference, for
      any address. */
  lemma ReapingIsObservable(c: Config, ip: Ip) returns (es: seq<Event>, i: nat)
    requires c.rps >= 0.0 && Accrued(c, IDLE) < c.burst as real
    ensures Legal(es) && i < |es| && Admits(c, es, i, true) != Admits(c, es, i, false)
  {
    hide *;
    var at := SlowRefill(c);
    EmptyIsShort(c, at);
    es, i := FloodTells(c, ip, at);
  }

  lemma FloodTells(c: Config, ip: Ip, at: real) returns (es: seq<Event>, i: nat)
    requires at > IDLE && Available(c, Visitor(0.0, 0.0), at) < c.burst as real && c.burst > 0
    ensures Legal(es) && i < |es| && Admits(c, es, i, true) != Admits(c, es, i, false)
  {
    hide *;
    var before := Telltale(c, ip, at);
    es := Flood(before, ip, c.burst, at);
    i := |before| + (c.burst - 1);
    TelltaleIsLegal(c, ip, at);
    AfterTelltale(c, ip, at);
    FloodAnswers(c, before, ip, c.burst, c.burst - 1, at, true);
    FloodAnswers(c, before, ip, c.burst, c.burst - 1, at, false);
    NewOutlastsShort(c, Visitor(0.0, 0.0), at);
  }

  lemma EmptyIsShort(c: Config, at: real)
    requires Accrued(c, at) < c.burst as real
    ensures Available(c, Visitor(0.0, 0.0), at) < c.burst as real
  {
    assert at - 0.0 == at;
    hide Accrued;
  }

  /** The last request of a burst tells a new bucket from one that is not full. */
  lemma NewOutlastsShort(c: Config, v: Visitor, at: real)
    requires c.burst > 0 && Available(c, v, at) < c.burst as real
    ensures Allows(c, Drained(c, NewVisitor(c, at), c.burst - 1, at), at)
    ensures !Allows(c, Drained(c, v, c.burst - 1, at), at)
  {
    hide Accrued, Drained;
    DrainsNew(c, c.burst - 1, at);
    DrainsShort(c, v, c.burst - 1, at);
  }

  /** A moment after IDLE at which an empty bucket is still short of `burst`. */
  lemma SlowRefill(c: Config) returns (at: real)
    requires c.rps >= 0.0 && Accrued(c, IDLE) < c.burst as real
    ensures at > IDLE && Accrued(c, at) < c.burst as real && c.burst > 0
  {
    if c.rps == 0.0 {
      at := IDLE + 1.0;
    } else {
      var slack := (c.burst as real - Accrued(c, IDLE)) / (2.0 * c.rps);
      assert slack * (2.0 * c.rps) == c.burst as real - Accrued(c, IDLE);
      assert slack > 0.0;
      at := IDLE + slack;
      assert Accrued(c, at) == Accrued(c, IDLE) + slack * c.rps;
    }
  }

  /** The exact condition: deletion is unobservable on all traces iff an idle bucket refills. */
  lemma UnobservableIff(c: Config)
    requires c.rps >= 0.0
    ensures Unobservable(c) <==> c.rps * IDLE >= c.burst as real
  {
    assert Accrued(c, IDLE) == c.rps * IDLE;
    hide Accrued;
    if Accrued(c, IDLE) >= c.burst as real {
      forall es, i | Legal(es) && 0 <= i < |es|
        ensures Admits(c, es, i, true) == Admits(c, es, i, false)
      {
        ReapingIsUnobservable(c, es, i);
      }
    } else {
      var es, i := ReapingIsObservable(c, "");
    }
  }

  /** The server's own limiter (0.5 per second, burst 5) meets the condition. */
  lemma ServerLimiterIsUnobservable()
    ensures Unobservable(Config(0.5, 5))
  {
    UnobservableIff(Config(0.5, 5));
  }

  // ---- Waiting is enough -------------------------------------------------------------------

  /** A bucket was last used by an earlier request of its address. */
  lemma {:induction false} SeenAtSomeHit(c: Config, es: seq<Event>, ip: Ip, reaping: bool) returns (j: nat)
    requires ip in After(c, es, reaping)
    ensures j < |es| && es[j] == Hit(ip, After(c, es, reaping)[ip].lastSeen)
    decreases |es|
  {
    var n := |es| - 1;
    if es[n].Hit? && es[n].ip == ip {
      j := n;
    } else {
      j := SeenAtSomeHit(c, es[..n], ip, reaping);
    }
  }

  /** A request is admitted whenever every earlier request of its address is far enough back for one
      token to flow in, whatever happened to those. */
  lemma WaitingIsEnough(c: Config, es: seq<Event>, i: nat, reaping: bool)
    requires c.rps >= 0.0 && c.burst >= 1 && Legal(es) && i < |es| && es[i].Hit?
    requires forall j :: 0 <= j < i && es[j].Hit? && es[j].ip == es[i].ip ==> Accrued(c, es[i].at - es[j].at) >= 1.0
    ensures Admits(c, es, i, reaping)
  {
    hide Accrued, Available, After, Legal;
    var ip, now := es[i].ip, es[i].at;
    var vs := After(c, es[..i], reaping);
    SaneBefore(c, es, i, reaping);
    assert Admits(c, es, i, reaping) == Allows(c, GetOrCreate(c, vs, ip, now), now);
    if ip in vs {
      assert vs[ip].tokens >= 0.0;
      var j := SeenAtSomeHit(c, es[..i], ip, reaping);
      assert es[j] == Hit(ip, vs[ip].lastSeen);
      OneTokenSuffices(c, vs[ip], now);
    } else {
      FullBucketAllows(c, now);
    }
  }

  lemma SaneBefore(c: Config, es: seq<Event>, i: nat, reaping: bool)
    requires c.rps >= 0.0 && Legal(es) && i < |es|
    ensures Sane(c, After(c, es[..i], reaping), es[i].at)
  {
    hide Accrued;
    assert forall j :: 0 <= j < i ==> TimeOf(es[j]) <= TimeOf(es[i]);
    StaysSane(c, es[..i], reaping, es[i].at);
  }

  lemma OneTokenSuffices(c: Config, v: Visitor, now: real)
    requires c.burst >= 1 && v.tokens >= 0.0 && Accrued(c, now - v.lastSeen) >= 1.0
    ensures Allows(c, v, now)
  {
  }

  lemma FullBucketAllows(c: Config, now: real)
    requires c.burst >= 1
    ensures Allows(c, NewVisitor(c, now), now)
  {
    AccruedZero(c, now);
  }

  // ---- The window bound --------------------------------------------------------------------

  /** How many of the events i..j are admitted requests of `ip`. */
  function Admitted(c: Config, es: seq<Event>, ip: Ip, i: nat, j: nat, reaping: bool): nat
    requires i <= j <= |es|
  {
    if i == j then 0
    else Admitted(c, es, ip, i, j - 1, reaping) + if es[j - 1].ip == ip && Admits(c, es, j - 1, reaping) then 1 else 0
  }

  /** Tokens `ip` would have at time t if the trace stopped before event j. */
  function Left(c: Config, es: seq<Event>, ip: Ip, j: nat, t: real): real
    requires j <= |es|
  {
    Available(c, GetOrCreate(c, After(c, es[..j], false), ip, t), t)
  }

  /** An event takes one token from its own address if it is admitted, and none from others. */
  lemma LeftAfter(c: Config, es: seq<Event>, ip: Ip, j: nat, t: real)
    requires c.rps >= 0.0 && j < |es| && es[j].at <= t
    ensures es[j].Hit? && es[j].ip == ip ==>
      Left(c, es, ip, j + 1, t) <= Left(c, es, ip, j, es[j].at) + Accrued(c, t - es[j].at)
                                   - if Admits(c, es, j, false) then 1.0 else 0.0
    ensures !(es[j].Hit? && es[j].ip == ip) ==> Left(c, es, ip, j + 1, t) == Left(c, es, ip, j, t)
  {
    hide Accrued;
    assert es[..j + 1][..j] == es[..j] && es[..j + 1][j] == es[j];
  }

  lemma {:induction false} TokensAccount(c: Config, es: seq<Event>, ip: Ip, i: nat, j: nat, t: real)
    requires c.rps >= 0.0 && Legal(es) && i < j <= |es| && TimeOf(es[j - 1]) <= t
    ensures Admitted(c, es, ip, i, j, false) as real + Left(c, es, ip, j, t) <=
            c.burst as real + Accrued(c, t - TimeOf(es[i]))
    decreases j
  {
    hide Accrued, After, Left, Admits;
    var e := es[j - 1];
    var begun := TimeOf(es[i]);
    assert begun <= TimeOf(e);
    LeftAfter(c, es, ip, j - 1, t);
    LeftAtMostBurst(c, es, ip, j - 1, t);
    AccruedAdds(c, t - e.at, e.at - begun);
    assert (t - e.at) + (e.at - begun) == t - begun;
    AccruedZero(c, begun);
    AccruedGrows(c, begun - begun, t - begun);
    if i < j - 1 {
      assert TimeOf(es[j - 2]) <= TimeOf(e);
      TokensAccount(c, es, ip, i, j - 1, e.at);
      TokensAccount(c, es, ip, i, j - 1, t);
    } else {
      LeftAtMostBurst(c, es, ip, i, e.at);
    }
    OnlyHitsAreAdmitted(c, es, j - 1);
  }

  lemma LeftAtMostBurst(c: Config, es: seq<Event>, ip: Ip, j: nat, t: real)
    requires j <= |es|
    ensures Left(c, es, ip, j, t) <= c.burst as real
  {
  }

  lemma OnlyHitsAreAdmitted(c: Config, es: seq<Event>, j: nat)
    requires j < |es|
    ensures !es[j].Hit? ==> !Admits(c, es, j, false)
  {
  }

  lemma {:induction false} SameAdmitted(c: Config, es: seq<Event>, ip: Ip, i: nat, j: nat)
    requires c.rps >= 0.0 && Accrued(c, IDLE) >= c.burst as real && Legal(es) && i <= j <= |es|
    ensures Admitted(c, es, ip, i, j, true) == Admitted(c, es, ip, i, j, false)
    decreases j
  {
    hide Accrued, Admits;
    if i < j {
      SameAdmitted(c, es, ip, i, j - 1);
      ReapingIsUnobservable(c, es, j - 1);
    }
  }

  lemma TokensLeftAreNotNegative(c: Config, es: seq<Event>, ip: Ip, t: real)
    requires c.rps >= 0.0 && Legal(es) && forall i :: 0 <= i < |es| ==> TimeOf(es[i]) <= t
    ensures Left(c, es, ip, |es|, t) >= 0.0
  {
    hide Accrued;
    assert es[..|es|] == es;
    StaysSane(c, es, false, t);
    UseIsSane(c, GetOrCreate(c, After(c, es, false), ip, t), t);
  }

  lemma WindowAccount(c: Config, es: seq<Event>, ip: Ip, i: nat, j: nat)
    requires c.rps >= 0.0 && Accrued(c, IDLE) >= c.burst as real && Legal(es) && i < j <= |es|
    ensures Admitted(c, es, ip, i, j, true) as real <= c.burst as real + Accrued(c, TimeOf(es[j - 1]) - TimeOf(es[i]))
  {
    hide Accrued, Admits, After;
    var t := TimeOf(es[j - 1]);
    SameAdmitted(c, es, ip, i, j);
    TokensAccount(c, es, ip, i, j, t);
    TokensLeftAreNotNegative(c, es[..j], ip, t);
    assert es[..j][..j] == es[..j];
  }

  /** In any window, the reaping limiter admits at most burst + rps * (window length) requests per
      address. */
  lemma WindowBound(c: Config, es: seq<Event>, ip: Ip, i: nat, j: nat)
    requires c.rps >= 0.0 && c.rps * IDLE >= c.burst as real && Legal(es) && i < j <= |es|
    ensures Admitted(c, es, ip, i, j, true) as real <= c.burst as real + (TimeOf(es[j - 1]) - TimeOf(es[i])) * c.rps
  {
    hide Admitted, Legal;
    assert Accrued(c, IDLE) == c.rps * IDLE;
    WindowAccount(c, es, ip, i, j);
  }
}
