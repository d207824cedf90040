/** The limiter of anmates-api/middleware/ratelimit.go with requests and reaper as they run: a request
    gets its visitor and later takes a token from it, the reaper judges an entry stale and later deletes
    it, and these steps interleave. */
module Reaper {
  import opened L = RateLimit

  type Req = nat

  datatype Act =
    | Get(r: Req, ip: Ip, at: real)            // getOrCreate
    | Allow(r: Req, at: real)                  // under the visitor's lock
    | Mark(ip: Ip, cutoff: real, at: real)     // judge the entry, against a cutoff IDLE before the tick
    | Delete(ip: Ip, at: real)

  /** The visitor a request got: its address's entry, or a visitor whose entry was deleted since. */
  datatype Ref = Entry(ip: Ip) | Orphan(n: nat)

  /** `held` are the requests in flight, `marked` the entries judged stale and not yet deleted. */
  datatype State = State(visitors: Visitors, orphans: seq<Visitor>, held: map<Req, Ref>, marked: set<Ip>)

  const EMPTY: State := State(map[], [], map[], {})

  /** Time does not go back, and a request gets its visitor once before it takes its token once. */
  ghost predicate Legal(inFlight: set<Req>, now: real, es: seq<Act>)
    decreases |es|
  {
    es != [] ==>
      && now <= es[0].at
      && match es[0]
         case Get(r, _, at) => r !in inFlight && Legal(inFlight + {r}, at, es[1..])
         case Allow(r, at) => r in inFlight && Legal(inFlight - {r}, at, es[1..])
         case Mark(_, cutoff, at) => cutoff <= at - IDLE && Legal(inFlight, at, es[1..])
         case Delete(_, at) => Legal(inFlight, at, es[1..])
  }

  function Redirected(held: map<Req, Ref>, ip: Ip, n: nat): map<Req, Ref> {
    map r | r in held :: if held[r] == Entry(ip) then Orphan(n) else held[r]
  }

  /** The entry leaves the table; requests that got it before still use it. */
  function Without(s: State, ip: Ip): State {
    if ip in s.visitors then
      State(s.visitors - {ip}, s.orphans + [s.visitors[ip]], Redirected(s.held, ip, |s.orphans|), s.marked - {ip})
    else s.(marked := s.marked - {ip})
  }

  function Bucket(c: Config, s: State, ref: Ref, now: real): Visitor {
    match ref
    case Entry(ip) => GetOrCreate(c, s.visitors, ip, now)
    case Orphan(n) => if n < |s.orphans| then s.orphans[n] else NewVisitor(c, now)
  }

  function Take(c: Config, s: State, ref: Ref, now: real): State {
    match ref
    case Entry(ip) => s.(visitors := Request(c, s.visitors, ip, now).0)
    case Orphan(n) => if n < |s.orphans| then s.(orphans := s.orphans[n := Use(c, s.orphans[n], now)]) else s
  }

  /** `reaping` says whether entries judged stale really get deleted. */
  function After(c: Config, s: State, e: Act, reaping: bool): State {
    match e
    case Get(r, ip, at) =>
      s.(visitors := s.visitors[ip := GetOrCreate(c, s.visitors, ip, at)], held := s.held[r := Entry(ip)])
    case Allow(r, at) => if r in s.held then Take(c, s, s.held[r], at).(held := s.held - {r}) else s
    case Mark(ip, cutoff, _) =>
      if ip in s.visitors && s.visitors[ip].lastSeen < cutoff then s.(marked := s.marked + {ip}) else s
    case Delete(ip, _) => if reaping && ip in s.marked then Without(s, ip) else s
  }

  function Run(c: Config, s: State, es: seq<Act>, reaping: bool): State
    decreases |es|
  {
    if es == [] then s else Run(c, After(c, s, es[0], reaping), es[1..], reaping)
  }

  /** What a request is told, if e is the step at which it is told. */
  function Answer(c: Config, s: State, e: Act): seq<bool> {
    if e.Allow? && e.r in s.held then [Allows(c, Bucket(c, s, s.held[e.r], e.at), e.at)] else []
  }

  /** What the requests of a run are told, in order. */
  function Answers(c: Config, s: State, es: seq<Act>, reaping: bool): seq<bool>
    decreases |es|
  {
    if es == [] then [] else Answer(c, s, es[0]) + Answers(c, After(c, s, es[0], reaping), es[1..], reaping)
  }

  /** A request takes its token from the visitor that it got, whether or not that is still in the table. */
  lemma TokensAreTaken(c: Config, s: State, r: Req, at: real, reaping: bool, refilled: real)
    requires r in s.held && (s.held[r].Orphan? ==> s.held[r].n < |s.orphans|)
    requires refilled == Bucket(c, s, s.held[r], at).tokens + (at - Bucket(c, s, s.held[r], at).lastSeen) * c.rps
    ensures (var s' := After(c, s, Allow(r, at), reaping);
             var tokens := if refilled <= c.burst as real then refilled else c.burst as real;
             && Answer(c, s, Allow(r, at)) == [tokens >= 1.0]
             && Bucket(c, s', s.held[r], at) == Visitor(if tokens >= 1.0 then tokens - 1.0 else tokens, at)
             && s'.held == s.held - {r} && s'.marked == s.marked && |s'.orphans| == |s.orphans|)
  {
    AccruedIs(c, at - Bucket(c, s, s.held[r], at).lastSeen);
    hide Accrued;
  }

  // ---- When a deletion is harmless ---------------------------------------------------------

  /** Nothing is forgotten by deleting the entry at t. */
  predicate Full(c: Config, vs: Visitors, ip: Ip, t: real) {
    ip in vs ==> Available(c, vs[ip], t) == c.burst as real
  }

  predicate InFlight(s: State, ip: Ip) { exists r :: r in s.held && s.held[r] == Entry(ip) }

  /** The bucket is full, and no request in flight has got it (unless nothing is ever allowed). */
  predicate Harmless(c: Config, s: State, ip: Ip, t: real) {
    ip in s.visitors ==> Full(c, s.visitors, ip, t) && (InFlight(s, ip) ==> c.burst == 0)
  }

  lemma FullStays(c: Config, vs: Visitors, ip: Ip, t: real, t': real)
    requires c.rps >= 0.0 && t <= t' && Full(c, vs, ip, t)
    ensures Full(c, vs, ip, t')
  {
    hide Accrued;
    if ip in vs {
      AccruedGrows(c, t - vs[ip].lastSeen, t' - vs[ip].lastSeen);
    }
  }

  /** An address has the same bucket on both sides, or a full one. */
  predicate SameBucket(c: Config, vs: Visitors, us: Visitors, ip: Ip, now: real) {
    (ip in vs && ip in us && vs[ip] == us[ip]) || (Full(c, vs, ip, now) && Full(c, us, ip, now))
  }

  /** The limiter s has deleted entries that the limiter u has not, and nobody will ever know. */
  ghost predicate Agree(c: Config, s: State, u: State, now: real) {
    && (forall ip :: SameBucket(c, s.visitors, u.visitors, ip, now))
    && s.held == u.held && u.orphans <= s.orphans
    && (forall r :: r in u.held && u.held[r].Orphan? ==> u.held[r].n < |u.orphans|)
  }

  lemma AgreeLater(c: Config, s: State, u: State, now: real, later: real)
    requires c.rps >= 0.0 && now <= later && Agree(c, s, u, now)
    ensures Agree(c, s, u, later)
  {
    forall ip
      ensures SameBucket(c, s.visitors, u.visitors, ip, later)
    {
      assert SameBucket(c, s.visitors, u.visitors, ip, now);
      hide Full;
      if Full(c, s.visitors, ip, now) && Full(c, u.visitors, ip, now) {
        FullStays(c, s.visitors, ip, now, later);
        FullStays(c, u.visitors, ip, now, later);
      }
    }
  }

  lemma SameBalance(c: Config, vs: Visitors, us: Visitors, ip: Ip, now: real)
    requires SameBucket(c, vs, us, ip, now)
    ensures Available(c, GetOrCreate(c, vs, ip, now), now) == Available(c, GetOrCreate(c, us, ip, now), now)
    ensures Request(c, vs, ip, now).0[ip] == Request(c, us, ip, now).0[ip]
  {
    hide Accrued;
    AccruedZero(c, now);
  }

  lemma GotAgrees(c: Config, vs: Visitors, us: Visitors, ip: Ip, now: real)
    requires SameBucket(c, vs, us, ip, now)
    ensures SameBucket(c, vs[ip := GetOrCreate(c, vs, ip, now)], us[ip := GetOrCreate(c, us, ip, now)], ip, now)
  {
    hide Accrued;
    AccruedZero(c, now);
  }

  lemma GetAgrees(c: Config, s: State, u: State, r: Req, ip: Ip, now: real)
    requires Agree(c, s, u, now)
    ensures Agree(c, After(c, s, Get(r, ip, now), true), After(c, u, Get(r, ip, now), false), now)
  {
    var s', u' := After(c, s, Get(r, ip, now), true), After(c, u, Get(r, ip, now), false);
    GotAgrees(c, s.visitors, u.visitors, ip, now);
    hide Available, GetOrCreate;
    forall i
      ensures SameBucket(c, s'.visitors, u'.visitors, i, now)
    {
      assert SameBucket(c, s.visitors, u.visitors, i, now);
    }
  }

  lemma AllowAgrees(c: Config, s: State, u: State, r: Req, now: real)
    requires Agree(c, s, u, now)
    ensures Agree(c, After(c, s, Allow(r, now), true), After(c, u, Allow(r, now), false), now)
    ensures Answer(c, s, Allow(r, now)) == Answer(c, u, Allow(r, now))
  {
    if r in s.held && s.held[r].Entry? {
      var ip := s.held[r].ip;
      SameBalance(c, s.visitors, u.visitors, ip, now);
      var s', u' := After(c, s, Allow(r, now), true), After(c, u, Allow(r, now), false);
      assert s'.visitors[ip] == u'.visitors[ip];
      hide Available, GetOrCreate, Use;
      forall i
        ensures SameBucket(c, s'.visitors, u'.visitors, i, now)
      {
        assert SameBucket(c, s.visitors, u.visitors, i, now);
      }
    }
  }

  lemma DeleteAgrees(c: Config, s: State, u: State, ip: Ip, now: real)
    requires Agree(c, s, u, now) && Harmless(c, s, ip, now) && c.burst > 0
    ensures Agree(c, Without(s, ip), u, now)
  {
    var s' := Without(s, ip);
    assert s'.held == s.held;
    forall i
      ensures SameBucket(c, s'.visitors, u.visitors, i, now)
    {
      assert SameBucket(c, s.visitors, u.visitors, i, now);
    }
  }

  /** Along the run every deletion is harmless at that moment. */
  ghost predicate OnlyHarmless(c: Config, s: State, es: seq<Act>)
    decreases |es|
  {
    es != [] ==>
      && (es[0].Delete? && es[0].ip in s.marked ==> Harmless(c, s, es[0].ip, es[0].at))
      && OnlyHarmless(c, After(c, s, es[0], true), es[1..])
  }

  lemma StepAgrees(c: Config, s: State, u: State, now: real, e: Act)
    requires c.rps >= 0.0 && c.burst > 0 && now <= e.at && Agree(c, s, u, now)
    requires e.Delete? && e.ip in s.marked ==> Harmless(c, s, e.ip, e.at)
    ensures Agree(c, After(c, s, e, true), After(c, u, e, false), e.at)
    ensures Answer(c, s, e) == Answer(c, u, e)
  {
    AgreeLater(c, s, u, now, e.at);
    hide SameBucket, Bucket;
    match e
    case Get(r, ip, at) => GetAgrees(c, s, u, r, ip, at);
    case Allow(r, at) => AllowAgrees(c, s, u, r, at);
    case Delete(ip, at) => if ip in s.marked { DeleteAgrees(c, s, u, ip, at); }
    case _ =>
  }

  lemma {:induction false} HarmlessAgrees(c: Config, s: State, u: State, now: real, es: seq<Act>)
    requires c.rps >= 0.0 && c.burst > 0
    requires Legal(s.held.Keys, now, es) && OnlyHarmless(c, s, es) && Agree(c, s, u, now)
    ensures Answers(c, s, es, true) == Answers(c, u, es, false)
    decreases |es|
  {
    if es != [] {
      StepAgrees(c, s, u, now, es[0]);
      KeysStep(c, s, es[0], true);
      hide Agree, Harmless, After, Answer;
      HarmlessAgrees(c, After(c, s, es[0], true), After(c, u, es[0], false), es[0].at, es[1..]);
    }
  }

  /** Which requests are in flight is the same whatever is deleted. */
  lemma KeysStep(c: Config, s: State, e: Act, reaping: bool)
    ensures After(c, s, e, reaping).held.Keys ==
      match e
      case Get(r, _, _) => s.held.Keys + {r}
      case Allow(r, _) => s.held.Keys - {r}
      case _ => s.held.Keys
  {
  }

  lemma {:induction false} NothingAllowed(c: Config, s: State, u: State, es: seq<Act>, reaping: bool)
    requires c.burst == 0 && s.held.Keys == u.held.Keys
    ensures Answers(c, s, es, true) == Answers(c, u, es, reaping)
    decreases |es|
  {
    if es != [] {
      KeysStep(c, s, es[0], true);
      KeysStep(c, u, es[0], reaping);
      assert forall r :: r in s.held.Keys <==> r in u.held.Keys;
      hide Accrued, After, Bucket;
      NothingAllowed(c, After(c, s, es[0], true), After(c, u, es[0], reaping), es[1..], reaping);
    }
  }

  /** If every deletion is harmless, no request is told anything else than without deletion. */
  lemma HarmlessDeletionsAreUnnoticed(c: Config, es: seq<Act>, now: real)
    requires c.rps >= 0.0 && Legal({}, now, es) && OnlyHarmless(c, EMPTY, es)
    ensures Answers(c, EMPTY, es, true) == Answers(c, EMPTY, es, false)
  {
    if c.burst == 0 {
      NothingAllowed(c, EMPTY, EMPTY, es, false);
    } else {
      assert EMPTY.held.Keys == {};
      HarmlessAgrees(c, EMPTY, EMPTY, now, es);
    }
  }

  // ---- The condition is exact --------------------------------------------------------------

  /** What holds in every state that requests and reaper can reach. */
  ghost predicate Valid(c: Config, s: State, now: real) {
    && Sane(c, s.visitors, now)
    && (forall r :: r in s.held && s.held[r].Orphan? ==> s.held[r].n < |s.orphans|)
  }

  ghost predicate OnlyRequests(es: seq<Act>) { forall e :: e in es ==> e.Get? || e.Allow? }

  lemma {:induction false} RequestsDeleteNothing(c: Config, s: State, es: seq<Act>)
    requires OnlyRequests(es)
    ensures OnlyHarmless(c, s, es) && Answers(c, s, es, false) == Answers(c, s, es, true)
    decreases |es|
  {
    if es != [] {
      assert es[0] in es;
      RequestsDeleteNothing(c, After(c, s, es[0], true), es[1..]);
    }
  }

  /** n requests of an address at one instant, one after the other. */
  function Burst(r: Req, ip: Ip, n: nat, t: real): seq<Act> {
    if n == 0 then [] else [Get(r, ip, t), Allow(r, t)] + Burst(r, ip, n - 1, t)
  }

  lemma {:induction false} BurstIsLegal(inFlight: set<Req>, r: Req, ip: Ip, n: nat, t: real)
    requires r !in inFlight
    ensures Legal(inFlight, t, Burst(r, ip, n, t)) && OnlyRequests(Burst(r, ip, n, t))
  {
    if n > 0 {
      var es := Burst(r, ip, n, t);
      BurstIsLegal(inFlight, r, ip, n - 1, t);
      assert es[1..][1..] == Burst(r, ip, n - 1, t) && es[1..][0] == Allow(r, t);
      assert inFlight + {r} - {r} == inFlight;
      assert Legal(inFlight + {r}, t, es[1..]);
    }
  }

  /** One request that takes its token at once. */
  function Served(c: Config, s: State, r: Req, ip: Ip, t: real): State {
    s.(visitors := s.visitors[ip := Use(c, GetOrCreate(c, s.visitors, ip, t), t)], held := s.held - {r})
  }

  lemma BurstStep(c: Config, s: State, r: Req, ip: Ip, n: nat, t: real)
    requires n > 0
    ensures Answers(c, s, Burst(r, ip, n, t), true) ==
            [Allows(c, GetOrCreate(c, s.visitors, ip, t), t)] + Answers(c, Served(c, s, r, ip, t), Burst(r, ip, n - 1, t), true)
  {
    hide Use, Allows;
    var es := Burst(r, ip, n, t);
    var got := After(c, s, es[0], true);
    assert es[0] == Get(r, ip, t) && es[1..][0] == Allow(r, t) && es[1..][1..] == Burst(r, ip, n - 1, t);
    assert got.held - {r} == s.held - {r};
    assert After(c, got, Allow(r, t), true) == Served(c, s, r, ip, t);
  }

  lemma {:induction false} BurstAnswers(c: Config, s: State, r: Req, ip: Ip, n: nat, t: real, k: nat)
    requires k < n
    ensures |Answers(c, s, Burst(r, ip, n, t), true)| == n
    ensures Answers(c, s, Burst(r, ip, n, t), true)[k] ==
            Allows(c, Drained(c, GetOrCreate(c, s.visitors, ip, t), k, t), t)
    decreases n
  {
    hide Use, Allows, Burst;
    BurstStep(c, s, r, ip, n, t);
    var next := Served(c, s, r, ip, t);
    if n > 1 {
      BurstAnswers(c, next, r, ip, n - 1, t, if k > 0 then k - 1 else 0);
    } else {
      NoBurst(c, next, r, ip, t);
    }
    if k > 0 {
      DrainShift(c, GetOrCreate(c, s.visitors, ip, t), k - 1, t);
    }
  }

  lemma NoBurst(c: Config, s: State, r: Req, ip: Ip, t: real)
    ensures Answers(c, s, Burst(r, ip, 0, t), true) == []
  {
  }

  lemma {:induction false} DrainShift(c: Config, v: Visitor, k: nat, t: real)
    ensures Drained(c, Use(c, v, t), k, t) == Drained(c, v, k + 1, t)
  {
    hide Use;
    if k > 0 {
      DrainShift(c, v, k - 1, t);
    }
  }

  /** A burst tells an address without an entry from one whose bucket is not full. */
  lemma BurstTells(c: Config, s: State, u: State, r: Req, ip: Ip, t: real)
    requires ip !in s.visitors && ip in u.visitors && 0.0 <= Available(c, u.visitors[ip], t) < c.burst as real
    ensures (var es := Burst(r, ip, c.burst, t); Answers(c, s, es, true) != Answers(c, u, es, true))
  {
    hide *;
    Found(c, s.visitors, u.visitors, ip, t);
    BurstAnswers(c, s, r, ip, c.burst, t, c.burst - 1);
    BurstAnswers(c, u, r, ip, c.burst, t, c.burst - 1);
    NewOutlastsShort(c, u.visitors[ip], t);
  }

  lemma Found(c: Config, vs: Visitors, us: Visitors, ip: Ip, t: real)
    requires ip !in vs && ip in us
    ensures GetOrCreate(c, vs, ip, t) == NewVisitor(c, t) && GetOrCreate(c, us, ip, t) == us[ip]
  {
  }

  /** Whatever requests come from t on, those in flight included, they are told the same with and
      without the deletion. */
  ghost predicate DeletionUnnoticed(c: Config, s: State, ip: Ip, t: real) {
    forall es :: Legal(s.held.Keys, t, es) && OnlyRequests(es) ==>
      Answers(c, Without(s, ip), es, true) == Answers(c, s, es, true)
  }

  lemma {:induction false} Above(ids: set<Req>) returns (r: Req)
    ensures forall x :: x in ids ==> x < r
  {
    if ids == {} {
      r := 0;
    } else {
      var x :| x in ids;
      r := Above(ids - {x});
      r := if r > x then r else x + 1;
      assert forall y :: y in ids ==> y == x || y in ids - {x};
    }
  }

  lemma HarmlessIsUnnoticed(c: Config, s: State, ip: Ip, t: real, es: seq<Act>)
    requires c.rps >= 0.0 && Valid(c, s, t) && Harmless(c, s, ip, t)
    requires Legal(s.held.Keys, t, es) && OnlyRequests(es)
    ensures Answers(c, Without(s, ip), es, true) == Answers(c, s, es, true)
  {
    var s' := Without(s, ip);
    RequestsDeleteNothing(c, s', es);
    RequestsDeleteNothing(c, s, es);
    assert s'.held.Keys == s.held.Keys;
    if c.burst == 0 {
      NothingAllowed(c, s', s, es, true);
    } else {
      assert Agree(c, s, s, t);
      DeleteAgrees(c, s, s, ip, t);
      HarmlessAgrees(c, s', s, t, es);
    }
  }

  lemma ShortIsNoticed(c: Config, s: State, ip: Ip, t: real) returns (es: seq<Act>)
    requires ip in s.visitors && 0.0 <= Available(c, s.visitors[ip], t) < c.burst as real
    ensures Legal(s.held.Keys, t, es) && OnlyRequests(es)
    ensures Answers(c, Without(s, ip), es, true) != Answers(c, s, es, true)
  {
    var r := Above(s.held.Keys);
    es := Burst(r, ip, c.burst, t);
    BurstIsLegal(s.held.Keys, r, ip, c.burst, t);
    hide Available, Legal, Burst, Answers;
    BurstTells(c, Without(s, ip), s, r, ip, t);
  }

  /** The request takes its token from the orphan, so that the new bucket is still full. */
  lemma HeldIsNoticed(c: Config, s: State, ip: Ip, t: real) returns (es: seq<Act>)
    requires ip in s.visitors && 0.0 <= Available(c, s.visitors[ip], t) <= c.burst as real
    requires c.burst > 0 && InFlight(s, ip)
    ensures Legal(s.held.Keys, t, es) && OnlyRequests(es)
    ensures Answers(c, Without(s, ip), es, true) != Answers(c, s, es, true)
  {
    var q :| q in s.held && s.held[q] == Entry(ip);
    var r := Above(s.held.Keys);
    var more := Burst(r, ip, c.burst, t);
    es := [Allow(q, t)] + more;
    assert es[1..] == more;
    BurstIsLegal(s.held.Keys - {q}, r, ip, c.burst, t);
    var s1, u1 := After(c, Without(s, ip), es[0], true), After(c, s, es[0], true);
    JustUsedIsNotFull(c, s.visitors[ip], t);
    assert ip !in s1.visitors && ip in u1.visitors && u1.visitors[ip] == Use(c, s.visitors[ip], t);
    assert |Answer(c, Without(s, ip), es[0])| == |Answer(c, s, es[0])|;
    hide Available, Use, Burst, After, Without, Answer;
    BurstTells(c, s1, u1, r, ip, t);
    DifferBehind(Answer(c, Without(s, ip), es[0]), Answers(c, s1, more, true),
                 Answer(c, s, es[0]), Answers(c, u1, more, true));
  }

  lemma JustUsedIsNotFull(c: Config, v: Visitor, t: real)
    requires c.burst >= 1 && 0.0 <= Available(c, v, t) <= c.burst as real
    ensures 0.0 <= Available(c, Use(c, v, t), t) < c.burst as real
  {
    hide Accrued;
    AccruedZero(c, t);
  }

  lemma DifferBehind(a: seq<bool>, x: seq<bool>, b: seq<bool>, y: seq<bool>)
    requires |a| == |b| && x != y
    ensures a + x != b + y
  {
    assert (a + x)[|a|..] == x && (b + y)[|b|..] == y;
  }

  lemma HarmfulIsNoticed(c: Config, s: State, ip: Ip, t: real) returns (es: seq<Act>)
    requires c.rps >= 0.0 && Valid(c, s, t) && !Harmless(c, s, ip, t)
    ensures Legal(s.held.Keys, t, es) && OnlyRequests(es)
    ensures Answers(c, Without(s, ip), es, true) != Answers(c, s, es, true)
  {
    UseIsSane(c, s.visitors[ip], t);
    hide Available, Legal, Answers, Without;
    if Full(c, s.visitors, ip, t) {
      es := HeldIsNoticed(c, s, ip, t);
    } else {
      es := ShortIsNoticed(c, s, ip, t);
    }
  }

  /** The exact condition, to be read off before the deletion: it goes unnoticed by every later
      sequence of requests if and only if the bucket is full and no request in flight has got it. */
  lemma DeletionUnnoticedIff(c: Config, s: State, ip: Ip, t: real)
    requires c.rps >= 0.0 && Valid(c, s, t)
    ensures DeletionUnnoticed(c, s, ip, t) <==> Harmless(c, s, ip, t)
  {
    hide Legal, Harmless, Valid, Without, Answers;
    if Harmless(c, s, ip, t) {
      forall es | Legal(s.held.Keys, t, es) && OnlyRequests(es)
        ensures Answers(c, Without(s, ip), es, true) == Answers(c, s, es, true)
      {
        HarmlessIsUnnoticed(c, s, ip, t, es);
      }
    } else {
      var es := HarmfulIsNoticed(c, s, ip, t);
    }
  }

  // ---- The reaper is noticed ---------------------------------------------------------------

  ghost predicate NoDeletes(es: seq<Act>) { forall e :: e in es ==> !e.Delete? }

  lemma {:induction false} NoDeletesNoReaping(c: Config, s: State, es: seq<Act>)
    requires NoDeletes(es)
    ensures Run(c, s, es, false) == Run(c, s, es, true) && Answers(c, s, es, false) == Answers(c, s, es, true)
    decreases |es|
  {
    if es != [] {
      assert es[0] in es;
      NoDeletesNoReaping(c, After(c, s, es[0], true), es[1..]);
    }
  }

  lemma {:induction false} AnswersJoin(c: Config, s: State, es: seq<Act>, more: seq<Act>, reaping: bool)
    ensures Answers(c, s, es + more, reaping) ==
            Answers(c, s, es, reaping) + Answers(c, Run(c, s, es, reaping), more, reaping)
    decreases |es|
  {
    hide After, Answer;
    if es == [] {
      assert es + more == more;
    } else {
      assert (es + more)[1..] == es[1..] + more;
      AnswersJoin(c, After(c, s, es[0], reaping), es[1..], more, reaping);
    }
  }

  /** A trace, taken step by step from its state. */
  ghost predicate LegalUntil(c: Config, s: State, now: real, es: seq<Act>, t: real)
    decreases |es|
  {
    if es == [] then now <= t
    else Legal(s.held.Keys, now, [es[0]]) && LegalUntil(c, After(c, s, es[0], true), es[0].at, es[1..], t)
  }

  lemma {:induction false} LegalJoin(c: Config, s: State, now: real, es: seq<Act>, t: real, more: seq<Act>)
    requires LegalUntil(c, s, now, es, t) && Legal(Run(c, s, es, true).held.Keys, t, more)
    ensures Legal(s.held.Keys, now, es + more)
    decreases |es|
  {
    if es == [] {
      assert es + more == more;
    } else {
      LegalJoin(c, After(c, s, es[0], true), es[0].at, es[1..], t, more);
      assert (es + more)[1..] == es[1..] + more;
      KeysStep(c, s, es[0], true);
      hide After, LegalUntil, Run;
    }
  }

  lemma DeleteFirst(c: Config, s: State, ip: Ip, t: real, more: seq<Act>, reaping: bool)
    requires ip in s.marked
    ensures Answers(c, s, [Delete(ip, t)] + more, reaping) == Answers(c, if reaping then Without(s, ip) else s, more, reaping)
  {
    assert ([Delete(ip, t)] + more)[1..] == more;
  }

  lemma DeleteIsLegal(inFlight: set<Req>, ip: Ip, t: real, more: seq<Act>)
    requires Legal(inFlight, t, more)
    ensures Legal(inFlight, t, [Delete(ip, t)] + more)
  {
    assert ([Delete(ip, t)] + more)[1..] == more;
  }

  /** Wherever a deletion is not harmless, the trace can go on in such a way that it shows. */
  lemma HarmfulShows(c: Config, before: seq<Act>, ip: Ip, t: real) returns (es: seq<Act>)
    requires c.rps >= 0.0 && NoDeletes(before) && LegalUntil(c, EMPTY, 0.0, before, t)
    requires (var s := Run(c, EMPTY, before, true); Valid(c, s, t) && ip in s.marked && !Harmless(c, s, ip, t))
    ensures Legal({}, 0.0, es) && before + [Delete(ip, t)] <= es
    ensures Answers(c, EMPTY, es, true) != Answers(c, EMPTY, es, false)
  {
    var s := Run(c, EMPTY, before, true);
    assert EMPTY.held.Keys == {};
    hide *;
    var more := HarmfulIsNoticed(c, s, ip, t);
    es := before + ([Delete(ip, t)] + more);
    assert es == before + [Delete(ip, t)] + more;
    DeleteIsLegal(s.held.Keys, ip, t, more);
    LegalJoin(c, EMPTY, 0.0, before, t, [Delete(ip, t)] + more);
    RequestsDeleteNothing(c, s, more);
    DeleteShows(c, before, s, ip, t, more);
  }

  lemma DeleteShows(c: Config, before: seq<Act>, s: State, ip: Ip, t: real, more: seq<Act>)
    requires NoDeletes(before) && s == Run(c, EMPTY, before, true) && ip in s.marked
    requires Answers(c, Without(s, ip), more, true) != Answers(c, s, more, true) == Answers(c, s, more, false)
    ensures (var es := before + ([Delete(ip, t)] + more); Answers(c, EMPTY, es, true) != Answers(c, EMPTY, es, false))
  {
    hide *;
    NoDeletesNoReaping(c, EMPTY, before);
    AnswersJoin(c, EMPTY, before, [Delete(ip, t)] + more, true);
    AnswersJoin(c, EMPTY, before, [Delete(ip, t)] + more, false);
    DeleteFirst(c, s, ip, t, more, true);
    DeleteFirst(c, s, ip, t, more, false);
    DifferBehind(Answers(c, EMPTY, before, true), Answers(c, Without(s, ip), more, true),
                 Answers(c, EMPTY, before, false), Answers(c, s, more, false));
  }

  lemma OneStepIsLegal(inFlight: set<Req>, now: real, e: Act)
    requires now <= e.at && (e.Get? ==> e.r !in inFlight) && (e.Allow? ==> e.r in inFlight)
    requires e.Mark? ==> e.cutoff <= e.at - IDLE
    ensures Legal(inFlight, now, [e])
  {
    assert [e][1..] == [];
  }

  /** The trace es from s to w, which ends by t. */
  ghost predicate Reaches(c: Config, s: State, now: real, es: seq<Act>, w: State, t: real) {
    LegalUntil(c, s, now, es, t) && NoDeletes(es) && Run(c, s, es, true) == w
  }

  lemma Arrived(c: Config, w: State, t: real)
    ensures Reaches(c, w, t, [], w, t)
  {
  }

  lemma Before(c: Config, s: State, now: real, e: Act, s': State, es: seq<Act>, w: State, t: real)
    requires now <= e.at <= t && (e.Get? ==> e.r !in s.held) && (e.Allow? ==> e.r in s.held)
    requires !e.Delete? && (e.Mark? ==> e.cutoff <= e.at - IDLE) && s' == After(c, s, e, true)
    requires Reaches(c, s', e.at, es, w, t)
    ensures Reaches(c, s, now, [e] + es, w, t)
  {
    OneStepIsLegal(s.held.Keys, now, e);
    assert ([e] + es)[1..] == es;
    hide After, Legal;
  }

  /** An entry last used at 0 s is judged stale at 601 s. A second request comes right after that
      (`late`), or has got the visitor right before and not yet taken its token. */
  function Opening(ip: Ip, late: bool): seq<Act> {
    [Get(0, ip, 0.0)] + ([Allow(0, 0.0)] +
    if late then [Mark(ip, 1.0, 601.0)] + ([Get(1, ip, 601.0)] + ([Allow(1, 601.0)] + []))
    else [Get(1, ip, 601.0)] + ([Mark(ip, 1.0, 601.0)] + []))
  }

  function UsedOnce(c: Config): Visitor { Use(c, NewVisitor(c, 0.0), 0.0) }

  function Opened(c: Config, ip: Ip, late: bool): State {
    if late then State(map[ip := Use(c, UsedOnce(c), 601.0)], [], map[], {ip})
    else State(map[ip := UsedOnce(c)], [], map[1 := Entry(ip)], {ip})
  }

  function ServedOnce(c: Config, ip: Ip): State { State(map[ip := UsedOnce(c)], [], map[], {}) }

  lemma LateComer(c: Config, ip: Ip) returns (es: seq<Act>)
    ensures es == [Mark(ip, 1.0, 601.0)] + ([Get(1, ip, 601.0)] + ([Allow(1, 601.0)] + []))
    ensures Reaches(c, ServedOnce(c, ip), 0.0, es, Opened(c, ip, true), 601.0)
  {
    var w, v := Opened(c, ip, true), UsedOnce(c);
    assert v.lastSeen == 0.0;
    hide Use, Reaches, UsedOnce;
    var marked := State(map[ip := v], [], map[], {ip});
    var got := State(map[ip := v], [], map[1 := Entry(ip)], {ip});
    Arrived(c, w, 601.0);
    Before(c, got, 601.0, Allow(1, 601.0), w, [], w, 601.0);
    es := [Allow(1, 601.0)] + [];
    Before(c, marked, 601.0, Get(1, ip, 601.0), got, es, w, 601.0);
    es := [Get(1, ip, 601.0)] + es;
    Before(c, ServedOnce(c, ip), 0.0, Mark(ip, 1.0, 601.0), marked, es, w, 601.0);
    es := [Mark(ip, 1.0, 601.0)] + es;
  }

  lemma EarlyComer(c: Config, ip: Ip) returns (es: seq<Act>)
    ensures es == [Get(1, ip, 601.0)] + ([Mark(ip, 1.0, 601.0)] + [])
    ensures Reaches(c, ServedOnce(c, ip), 0.0, es, Opened(c, ip, false), 601.0)
  {
    var w, v := Opened(c, ip, false), UsedOnce(c);
    assert v.lastSeen == 0.0;
    hide Use, Reaches, UsedOnce;
    var got := State(map[ip := v], [], map[1 := Entry(ip)], {});
    Arrived(c, w, 601.0);
    Before(c, got, 601.0, Mark(ip, 1.0, 601.0), w, [], w, 601.0);
    es := [Mark(ip, 1.0, 601.0)] + [];
    Before(c, ServedOnce(c, ip), 0.0, Get(1, ip, 601.0), got, es, w, 601.0);
    es := [Get(1, ip, 601.0)] + es;
  }

  lemma FirstRequest(c: Config, ip: Ip, es: seq<Act>, w: State)
    requires Reaches(c, ServedOnce(c, ip), 0.0, es, w, 601.0)
    ensures Reaches(c, EMPTY, 0.0, [Get(0, ip, 0.0)] + ([Allow(0, 0.0)] + es), w, 601.0)
  {
    hide Use, Reaches;
    var got := State(map[ip := NewVisitor(c, 0.0)], [], map[0 := Entry(ip)], {});
    Before(c, got, 0.0, Allow(0, 0.0), ServedOnce(c, ip), es, w, 601.0);
    Before(c, EMPTY, 0.0, Get(0, ip, 0.0), got, [Allow(0, 0.0)] + es, w, 601.0);
  }

  lemma OpeningReaches(c: Config, ip: Ip, late: bool)
    ensures Reaches(c, EMPTY, 0.0, Opening(ip, late), Opened(c, ip, late), 601.0)
  {
    hide Reaches, Opened;
    var es;
    if late {
      es := LateComer(c, ip);
    } else {
      es := EarlyComer(c, ip);
    }
    FirstRequest(c, ip, es, Opened(c, ip, late));
  }

  lemma OpenedIsHarmful(c: Config, ip: Ip, late: bool)
    requires c.rps >= 0.0 && c.burst >= 1
    ensures (var s := Opened(c, ip, late); Valid(c, s, 601.0) && ip in s.marked && !Harmless(c, s, ip, 601.0))
  {
    hide Available;
    UseIsSane(c, NewVisitor(c, 0.0), 0.0);
    UseIsSane(c, UsedOnce(c), 601.0);
    JustUsedIsNotFull(c, UsedOnce(c), 601.0);
    if !late {
      assert Opened(c, ip, late).held[1] == Entry(ip);
    }
  }

  /** For every limiter with a burst at all, some request is let through that would have been refused
      without deletion: a request that comes between judgement and deletion is forgotten (`late`), and
      so is one that has got its visitor before and takes its token after the deletion. */
  lemma ReaperIsNoticed(c: Config, ip: Ip, late: bool) returns (es: seq<Act>)
    requires c.rps >= 0.0 && c.burst >= 1
    ensures Legal({}, 0.0, es) && Opening(ip, late) + [Delete(ip, 601.0)] <= es
    ensures Answers(c, EMPTY, es, true) != Answers(c, EMPTY, es, false)
  {
    OpeningReaches(c, ip, late);
    OpenedIsHarmful(c, ip, late);
    hide Opening, Opened, Valid, Harmless, LegalUntil, Run, NoDeletes;
    es := HarmfulShows(c, Opening(ip, late), ip, 601.0);
  }

  // ---- Where the atomic view is right ------------------------------------------------------

  /** From its judgement to its deletion no request that has got an entry is in flight. */
  ghost predicate Undisturbed(c: Config, s: State, es: seq<Act>)
    decreases |es|
  {
    es != [] ==>
      && (es[0].Get? ==> es[0].ip !in s.marked) && (es[0].Mark? ==> !InFlight(s, es[0].ip))
      && Undisturbed(c, After(c, s, es[0], true), es[1..])
  }

  ghost predicate MarkedAreIdle(s: State, now: real) {
    forall ip :: ip in s.marked ==>
      !InFlight(s, ip) && (ip in s.visitors ==> s.visitors[ip].lastSeen < now - IDLE)
  }

  lemma StaysSane(c: Config, s: State, now: real, e: Act, reaping: bool)
    requires c.rps >= 0.0 && now <= e.at && Valid(c, s, now)
    ensures Valid(c, After(c, s, e, reaping), e.at)
  {
    hide Accrued, Available;
    match e
    case Allow(r, at) =>
      if r in s.held && s.held[r].Entry? {
        NewIsSane(c, at);
        UseIsSane(c, GetOrCreate(c, s.visitors, s.held[r].ip, at), at);
      }
    case _ =>
  }

  lemma NewIsSane(c: Config, t: real)
    ensures 0.0 <= NewVisitor(c, t).tokens <= c.burst as real && NewVisitor(c, t).lastSeen == t
  {
  }

  /** Every state that requests and reaper reach is valid. */
  lemma {:induction false} ReachedIsValid(c: Config, s: State, now: real, es: seq<Act>, t: real)
    requires c.rps >= 0.0 && Valid(c, s, now) && LegalUntil(c, s, now, es, t)
    ensures Valid(c, Run(c, s, es, true), t)
    decreases |es|
  {
    hide After;
    if es != [] {
      StaysSane(c, s, now, es[0], true);
      ReachedIsValid(c, After(c, s, es[0], true), es[0].at, es[1..], t);
    }
  }

  lemma StaysIdle(c: Config, s: State, now: real, e: Act)
    requires now <= e.at && (e.Mark? ==> e.cutoff <= e.at - IDLE) && MarkedAreIdle(s, now)
    requires (e.Get? ==> e.ip !in s.marked) && (e.Mark? ==> !InFlight(s, e.ip))
    ensures MarkedAreIdle(After(c, s, e, true), e.at)
  {
    hide Use;
    var s' := After(c, s, e, true);
    forall ip | ip in s'.marked
      ensures !InFlight(s', ip) && (ip in s'.visitors ==> s'.visitors[ip].lastSeen < e.at - IDLE)
    {
      InFlightFrom(c, s, e, ip);
    }
  }

  lemma InFlightFrom(c: Config, s: State, e: Act, ip: Ip)
    ensures InFlight(After(c, s, e, true), ip) ==> InFlight(s, ip) || (e.Get? && e.ip == ip)
  {
    hide Use, GetOrCreate;
    var s' := After(c, s, e, true);
    if r :| r in s'.held && s'.held[r] == Entry(ip) {
      if !(e.Get? && e.r == r) {
        assert r in s.held && s.held[r] == Entry(ip);
      }
    }
  }

  lemma {:induction false} UndisturbedIsHarmless(c: Config, s: State, now: real, es: seq<Act>)
    requires c.rps >= 0.0 && c.rps * IDLE >= c.burst as real
    requires Legal(s.held.Keys, now, es) && Undisturbed(c, s, es) && Valid(c, s, now) && MarkedAreIdle(s, now)
    ensures OnlyHarmless(c, s, es)
    decreases |es|
  {
    if es != [] {
      var e := es[0];
      StaysIdle(c, s, now, e);
      StaysSane(c, s, now, e, true);
      KeysStep(c, s, e, true);
      if e.Delete? && e.ip in s.marked && e.ip in s.visitors {
        RefillsInIdle(c, s.visitors[e.ip], e.at);
      }
      hide After, Valid, MarkedAreIdle, Full, InFlight;
      UndisturbedIsHarmless(c, After(c, s, e, true), e.at, es[1..]);
    }
  }

  lemma RefillsInIdle(c: Config, v: Visitor, t: real)
    requires c.rps >= 0.0 && c.rps * IDLE >= c.burst as real && v.tokens >= 0.0 && t - v.lastSeen >= IDLE
    ensures Available(c, v, t) == c.burst as real
  {
    assert Accrued(c, IDLE) == c.rps * IDLE;
    hide Accrued;
    Refills(c, v, t);
  }

  /** If ten minutes refill a bucket and from its judgement to its deletion no request that has got the
      entry is in flight, the reaper goes unnoticed. */
  lemma UndisturbedReaperIsUnnoticed(c: Config, es: seq<Act>, now: real)
    requires c.rps >= 0.0 && c.rps * IDLE >= c.burst as real
    requires Legal({}, now, es) && Undisturbed(c, EMPTY, es)
    ensures Answers(c, EMPTY, es, true) == Answers(c, EMPTY, es, false)
  {
    assert EMPTY.held.Keys == {};
    UndisturbedIsHarmless(c, EMPTY, now, es);
    HarmlessDeletionsAreUnnoticed(c, es, now);
  }
}
