/** The emailed login codes of anmates-api/services/auth.go: RequestEmailOTP and VerifyEmailOTP on the
    email_otps table. Calls are atomic and share one clock; a code is its hash. */
module Otp {
  import opened Wrappers

  datatype Options = Options(expire: int, cooldown: int, maxAttempts: int)

  datatype Otp = Otp(codeHash: string, createdAt: int, expiresAt: int, attempts: int, consumed: bool)

  /** Each email's rows, oldest first. */
  type Table = map<string, seq<Otp>>

  function RowsOf(t: Table, email: string): seq<Otp> { if email in t then t[email] else [] }

  predicate CoolingDown(o: Options, rows: seq<Otp>, now: int) {
    rows != [] && now - rows[|rows| - 1].createdAt < o.cooldown
  }

  function Issue(o: Options, rows: seq<Otp>, hash: string, now: int): seq<Otp> {
    rows + [Otp(hash, now, now + o.expire, 0, false)]
  }

  predicate Usable(r: Otp, now: int) { !r.consumed && r.expiresAt > now }

  function NewestUsable(rows: seq<Otp>, now: int): (i: Option<nat>)
    ensures i.Some? ==> i.value < |rows| && Usable(rows[i.value], now)
    ensures i.Some? ==> forall j :: i.value < j < |rows| ==> !Usable(rows[j], now)
    ensures i.None? ==> forall j :: 0 <= j < |rows| ==> !Usable(rows[j], now)
  {
    if rows == [] then None
    else if Usable(rows[|rows| - 1], now) then Some(|rows| - 1)
    else NewestUsable(rows[..|rows| - 1], now)
  }

  datatype Outcome = NoCode | Exhausted | Wrong | Accepted

  function Judge(o: Options, r: Otp, hash: string): Outcome {
    if r.attempts + 1 > o.maxAttempts then Exhausted else if hash != r.codeHash then Wrong else Accepted
  }

  function Charge(r: Otp, outcome: Outcome): Otp {
    match outcome
    case NoCode => r
    case Exhausted => r.(consumed := true)
    case Wrong => r.(attempts := r.attempts + 1)
    case Accepted => r.(attempts := r.attempts + 1, consumed := true)
  }

  function Verify(o: Options, rows: seq<Otp>, hash: string, now: int): (res: (Outcome, seq<Otp>)) {
    var found := NewestUsable(rows, now);
    if found.None? then (NoCode, rows)
    else
      var outcome := Judge(o, rows[found.value], hash);
      (outcome, rows[found.value := Charge(rows[found.value], outcome)])
  }

  class AuthService {
    const o: Options
    var emailOtps: Table

    constructor (o: Options)
      ensures this.o == o && emailOtps == map[]
    {
      this.o := o;
      emailOtps := map[];
    }

    method RequestEmailOTP(email: string, hash: string, now: int) returns (issued: bool)
      modifies this
      ensures issued <==> !CoolingDown(o, RowsOf(old(emailOtps), email), now)
      ensures emailOtps ==
        if issued then old(emailOtps)[email := Issue(o, RowsOf(old(emailOtps), email), hash, now)] else old(emailOtps)
      ensures (var rows := if email in old(emailOtps) then old(emailOtps)[email] else [];
               && (issued <==> rows == [] || now - rows[|rows| - 1].createdAt >= o.cooldown)
               && (issued ==> emailOtps == old(emailOtps)[email := rows + [Otp(hash, now, now + o.expire, 0, false)]])
               && (!issued ==> emailOtps == old(emailOtps)))
    {
      var rows := RowsOf(emailOtps, email);
      if rows != [] && now - rows[|rows| - 1].createdAt < o.cooldown {
        return false;
      }
      emailOtps := emailOtps[email := rows + [Otp(hash, now, now + o.expire, 0, false)]];
      return true;
    }

    method VerifyEmailOTP(email: string, hash: string, now: int) returns (outcome: Outcome)
      modifies this
      ensures outcome == Verify(o, RowsOf(old(emailOtps), email), hash, now).0
      ensures RowsOf(emailOtps, email) == Verify(o, RowsOf(old(emailOtps), email), hash, now).1
      ensures forall e :: e != email ==> RowsOf(emailOtps, e) == RowsOf(old(emailOtps), e)
    {
      var rows := RowsOf(emailOtps, email);
      var found := NewestUsable(rows, now);
      if found.None? {
        return NoCode;
      }
      var r := rows[found.value];
      var attempts := r.attempts + 1;
      if attempts > o.maxAttempts {
        emailOtps := emailOtps[email := rows[found.value := r.(consumed := true)]];
        return Exhausted;
      }
      if hash != r.codeHash {
        emailOtps := emailOtps[email := rows[found.value := r.(attempts := attempts)]];
        return Wrong;
      }
      emailOtps := emailOtps[email := rows[found.value := r.(attempts := attempts, consumed := true)]];
      return Accepted;
    }
  }

  // ---- Runs --------------------------------------------------------------------------------

  /** One comparison of a presented code with row i of an email. */
  datatype Comparison = Comparison(email: string, i: nat, at: int, accepted: bool)

  datatype World = World(t: Table, log: seq<Comparison>, now: int)

  datatype Event =
    | Tick(d: nat)
    | Request(email: string, hash: string)
    | Try(email: string, hash: string)

  function Step(o: Options, w: World, e: Event): World {
    match e
    case Tick(d) => w.(now := w.now + d)
    case Request(email, hash) =>
      var rows := RowsOf(w.t, email);
      if CoolingDown(o, rows, w.now) then w else w.(t := w.t[email := Issue(o, rows, hash, w.now)])
    case Try(email, hash) =>
      var rows := RowsOf(w.t, email);
      var (outcome, after) := Verify(o, rows, hash, w.now);
      w.(t := w.t[email := after],
         log := if outcome.Wrong? || outcome.Accepted?
                then w.log + [Comparison(email, NewestUsable(rows, w.now).value, w.now, outcome.Accepted?)]
                else w.log)
  }

  function Run(o: Options, w: World, es: seq<Event>): World
    decreases |es|
  {
    if es == [] then w else Run(o, Step(o, w, es[0]), es[1..])
  }

  function Compared(log: seq<Comparison>, email: string, i: nat): nat {
    if log == [] then 0
    else
      var c := log[|log| - 1];
      Compared(log[..|log| - 1], email, i) + if c.email == email && c.i == i then 1 else 0
  }

  function AcceptedTimes(log: seq<Comparison>, email: string, i: nat): nat {
    if log == [] then 0
    else
      var c := log[|log| - 1];
      AcceptedTimes(log[..|log| - 1], email, i) + if c.email == email && c.i == i && c.accepted then 1 else 0
  }

  /** A run goes on event by event; time passes with the clock. */
  lemma {:induction false} RunsOn(o: Options, w: World, es: seq<Event>, e: Event)
    ensures Run(o, w, []) == w && Run(o, w, es + [e]) == Step(o, Run(o, w, es), e)
    ensures e.Tick? ==> Step(o, w, e) == w.(now := w.now + e.d)
    decreases |es|
  {
    if es == [] {
      assert [] + [e] == [e];
      assert Run(o, w, [e]) == Run(o, Step(o, w, e), []);
    } else {
      RunsOn(o, Step(o, w, es[0]), es[1..], e);
      RunsOn(o, w, [], e);
      assert (es + [e])[1..] == es[1..] + [e];
    }
  }

  /** A guess that is compared with a code is logged with the code, the moment and the outcome. */
  lemma GuessesAreLogged(o: Options, w: World, email: string, hash: string)
    ensures (var rows := RowsOf(w.t, email); var log := Step(o, w, Try(email, hash)).log;
             && ((forall j :: 0 <= j < |rows| ==> rows[j].consumed || rows[j].expiresAt <= w.now) ==> log == w.log)
             && forall i: nat ::
                  (i < |rows| && !rows[i].consumed && w.now < rows[i].expiresAt
                   && forall j :: i < j < |rows| ==> rows[j].consumed || rows[j].expiresAt <= w.now) ==>
                  log == w.log + if rows[i].attempts < o.maxAttempts
                                 then [Comparison(email, i, w.now, hash == rows[i].codeHash)] else [])
  {
    var rows := RowsOf(w.t, email);
    forall i: nat | i < |rows| && !rows[i].consumed && w.now < rows[i].expiresAt
                    && forall j :: i < j < |rows| ==> rows[j].consumed || rows[j].expiresAt <= w.now
      ensures NewestUsable(rows, w.now) == Some(i)
    {
    }
  }

  lemma CountsAre(log: seq<Comparison>, c: Comparison, email: string, i: nat)
    ensures Compared([], email, i) == 0 == AcceptedTimes([], email, i)
    ensures Compared(log + [c], email, i) == Compared(log, email, i) + if c.email == email && c.i == i then 1 else 0
    ensures AcceptedTimes(log + [c], email, i) ==
      AcceptedTimes(log, email, i) + if c.email == email && c.i == i && c.accepted then 1 else 0
  {
    assert (log + [c])[..|log|] == log;
  }

  /** A row's counters agree with the log. */
  ghost predicate RowOk(o: Options, r: Otp, log: seq<Comparison>, email: string, i: nat, now: int) {
    && r.createdAt <= now && r.expiresAt == r.createdAt + o.expire
    && r.attempts == Compared(log, email, i) && (r.attempts == 0 || r.attempts <= o.maxAttempts)
    && AcceptedTimes(log, email, i) <= (if r.consumed then 1 else 0)
  }

  ghost predicate Spaced(o: Options, rows: seq<Otp>) {
    forall i, j :: 0 <= i < j < |rows| ==> rows[i].createdAt + o.cooldown <= rows[j].createdAt
  }

  /** The comparison was made with a row of the email while that row was unexpired. */
  ghost predicate LogOk(o: Options, rows: seq<Otp>, c: Comparison) {
    c.i < |rows| && rows[c.i].createdAt <= c.at < rows[c.i].createdAt + o.expire
  }

  ghost predicate EmailOk(o: Options, rows: seq<Otp>, log: seq<Comparison>, email: string, now: int) {
    && Spaced(o, rows)
    && (forall i :: 0 <= i < |rows| ==> RowOk(o, rows[i], log, email, i, now))
    && (forall c :: c in log && c.email == email ==> LogOk(o, rows, c))
  }

  ghost predicate Inv(o: Options, w: World) {
    forall email :: EmailOk(o, RowsOf(w.t, email), w.log, email, w.now)
  }

  lemma {:induction false} NotCompared(log: seq<Comparison>, email: string, i: nat)
    requires forall c :: c in log && c.email == email ==> c.i != i
    ensures Compared(log, email, i) == 0 && AcceptedTimes(log, email, i) == 0
  {
    if log != [] {
      assert log[|log| - 1] in log;
      NotCompared(log[..|log| - 1], email, i);
    }
  }

  lemma IssueKeeps(o: Options, rows: seq<Otp>, log: seq<Comparison>, email: string, hash: string, now: int)
    requires o.cooldown > 0 && EmailOk(o, rows, log, email, now) && !CoolingDown(o, rows, now)
    ensures EmailOk(o, Issue(o, rows, hash, now), log, email, now)
  {
    NotCompared(log, email, |rows|);
    forall i | 0 <= i < |rows|
      ensures rows[i].createdAt + o.cooldown <= now
    {
      assert i < |rows| - 1 ==> rows[i].createdAt + o.cooldown <= rows[|rows| - 1].createdAt;
    }
  }

  lemma TryKeepsOthers(o: Options, rows: seq<Otp>, log: seq<Comparison>, email: string, now: int, c: Comparison)
    requires EmailOk(o, rows, log, email, now) && c.email != email
    ensures EmailOk(o, rows, log + [c], email, now)
  {
  }

  lemma TryKeeps(o: Options, rows: seq<Otp>, log: seq<Comparison>, email: string, now: int, i: nat, outcome: Outcome)
    requires EmailOk(o, rows, log, email, now) && i < |rows| && Usable(rows[i], now)
    requires outcome.Wrong? || outcome.Accepted? ==> rows[i].attempts < o.maxAttempts
    ensures EmailOk(o, rows[i := Charge(rows[i], outcome)],
                    if outcome.Wrong? || outcome.Accepted? then log + [Comparison(email, i, now, outcome.Accepted?)] else log,
                    email, now)
  {
  }

  lemma StepKeeps(o: Options, w: World, e: Event)
    requires o.cooldown > 0 && Inv(o, w)
    ensures Inv(o, Step(o, w, e))
  {
    var w' := Step(o, w, e);
    forall email
      ensures EmailOk(o, RowsOf(w'.t, email), w'.log, email, w'.now)
    {
      var rows := RowsOf(w.t, email);
      assert EmailOk(o, rows, w.log, email, w.now);
      match e
      case Tick(_) =>
        assert forall i | 0 <= i < |rows| :: RowOk(o, rows[i], w.log, email, i, w.now);
      case Request(_, hash) =>
        hide EmailOk;
        if email == e.email && !CoolingDown(o, rows, w.now) {
          IssueKeeps(o, rows, w.log, email, hash, w.now);
        }
      case Try(_, hash) =>
        hide EmailOk;
        var tried := RowsOf(w.t, e.email);
        var found := NewestUsable(tried, w.now);
        if found.Some? {
          var outcome := Judge(o, tried[found.value], hash);
          if email == e.email {
            TryKeeps(o, rows, w.log, email, w.now, found.value, outcome);
          } else {
            TryKeepsOthers(o, rows, w.log, email, w.now, Comparison(e.email, found.value, w.now, outcome.Accepted?));
          }
        }
    }
  }

  lemma {:induction false} RunKeeps(o: Options, w: World, es: seq<Event>)
    requires o.cooldown > 0 && Inv(o, w)
    ensures Inv(o, Run(o, w, es))
    decreases |es|
  {
    if es != [] {
      StepKeeps(o, w, es[0]);
      RunKeeps(o, Step(o, w, es[0]), es[1..]);
    }
  }

  const START: World := World(map[], [], 0)

  // ---- What one guess does, and what is final ----------------------------------------------

  /** A guess is accepted exactly if it is the newest usable code and that code has guesses left; the
      code is used up exactly if it is accepted or out of guesses; a guess that is compared is counted;
      no other code is touched. */
  lemma GuessIsJudged(o: Options, rows: seq<Otp>, i: nat, hash: string, now: int)
    requires i < |rows| && !rows[i].consumed && now < rows[i].expiresAt
    requires forall j :: i < j < |rows| ==> rows[j].consumed || rows[j].expiresAt <= now
    ensures (var (outcome, after) := Verify(o, rows, hash, now);
             && (outcome.Accepted? <==> hash == rows[i].codeHash && rows[i].attempts < o.maxAttempts)
             && |after| == |rows| && (forall j :: 0 <= j < |rows| && j != i ==> after[j] == rows[j])
             && (after[i].consumed <==> hash == rows[i].codeHash || rows[i].attempts >= o.maxAttempts)
             && after[i].attempts == rows[i].attempts + (if rows[i].attempts < o.maxAttempts then 1 else 0)
             && after[i].codeHash == rows[i].codeHash && after[i].createdAt == rows[i].createdAt
             && after[i].expiresAt == rows[i].expiresAt)
  {
    assert NewestUsable(rows, now) == Some(i);
  }

  lemma UsableIff(r: Otp, now: int)
    ensures Usable(r, now) <==> !r.consumed && now < r.expiresAt
  {
  }

  /** Without a code that is neither consumed nor expired nothing happens. */
  lemma NothingToGuess(o: Options, rows: seq<Otp>, hash: string, now: int)
    requires forall i :: 0 <= i < |rows| ==> rows[i].consumed || rows[i].expiresAt <= now
    ensures Verify(o, rows, hash, now) == (NoCode, rows)
  {
  }

  /** The events leave the email alone: it asks for no code and presents none. */
  ghost predicate LeavesEmail(es: seq<Event>, email: string) {
    forall e :: e in es ==> (e.Request? ==> e.email != email) && (e.Try? ==> e.email != email)
  }

  lemma {:induction false} RowsStay(o: Options, w: World, es: seq<Event>, email: string)
    requires LeavesEmail(es, email)
    ensures RowsOf(Run(o, w, es).t, email) == RowsOf(w.t, email)
    decreases |es|
  {
    if es != [] {
      assert es[0] in es;
      RowsStay(o, Step(o, w, es[0]), es[1..], email);
    }
  }

  /** The code that a request issued, presented before it expires and before any other event of its
      email, is accepted, whatever happens to others meanwhile; once it has expired it is not. */
  lemma IssuedCodeIsAccepted(o: Options, w: World, email: string, hash: string, es: seq<Event>)
    requires !CoolingDown(o, RowsOf(w.t, email), w.now) && o.maxAttempts > 0 && LeavesEmail(es, email)
    ensures (var later := Run(o, Step(o, w, Request(email, hash)), es);
             var after := Step(o, later, Try(email, hash));
             var i := |RowsOf(w.t, email)|;
             && (w.now <= later.now < w.now + o.expire ==> after.log == later.log + [Comparison(email, i, later.now, true)])
             && (later.now >= w.now + o.expire ==> Comparison(email, i, later.now, true) !in after.log[|later.log|..]))
  {
    hide Run;
    var issued := Step(o, w, Request(email, hash));
    var later := Run(o, issued, es);
    var rows := RowsOf(w.t, email) + [Otp(hash, w.now, w.now + o.expire, 0, false)];
    assert RowsOf(issued.t, email) == rows;
    RowsStay(o, issued, es, email);
    if later.now < w.now + o.expire {
      assert NewestUsable(rows, later.now) == Some(|rows| - 1);
    } else if NewestUsable(rows, later.now).Some? {
      assert NewestUsable(rows, later.now).value != |rows| - 1;
    }
  }

  /** A consumed code stays consumed and is never compared again. */
  lemma {:induction false} ConsumedIsFinal(o: Options, w: World, es: seq<Event>, email: string, i: nat)
    requires i < |RowsOf(w.t, email)| && RowsOf(w.t, email)[i].consumed
    ensures i < |RowsOf(Run(o, w, es).t, email)| && RowsOf(Run(o, w, es).t, email)[i].consumed
    ensures Compared(Run(o, w, es).log, email, i) == Compared(w.log, email, i)
    decreases |es|
  {
    if es != [] {
      ConsumedStep(o, w, es[0], email, i);
      ConsumedIsFinal(o, Step(o, w, es[0]), es[1..], email, i);
    }
  }

  lemma ConsumedStep(o: Options, w: World, e: Event, email: string, i: nat)
    requires i < |RowsOf(w.t, email)| && RowsOf(w.t, email)[i].consumed
    ensures (var w' := Step(o, w, e);
             && i < |RowsOf(w'.t, email)| && RowsOf(w'.t, email)[i].consumed
             && Compared(w'.log, email, i) == Compared(w.log, email, i))
  {
    var w' := Step(o, w, e);
    assert w'.log == w.log || w'.log[..|w'.log| - 1] == w.log;
  }

  // ---- What every run promises -------------------------------------------------------------

  /** Codes of an email are issued at least a cooldown apart; each is compared at most maxAttempts
      times and accepted at most once. */
  lemma CodesAreRationed(o: Options, es: seq<Event>, email: string, i: nat)
    requires o.cooldown > 0
    ensures Spaced(o, RowsOf(Run(o, START, es).t, email))
    ensures Compared(Run(o, START, es).log, email, i) <= NotNegative(o.maxAttempts)
    ensures AcceptedTimes(Run(o, START, es).log, email, i) <= 1
  {
    var w := Run(o, START, es);
    RunKeeps(o, START, es);
    CountsBounded(o, w, email, i);
  }

  function NotNegative(n: int): nat { if n > 0 then n else 0 }

  lemma CountsBounded(o: Options, w: World, email: string, i: nat)
    requires Inv(o, w)
    ensures Spaced(o, RowsOf(w.t, email))
    ensures Compared(w.log, email, i) <= NotNegative(o.maxAttempts) && AcceptedTimes(w.log, email, i) <= 1
  {
    var rows := RowsOf(w.t, email);
    assert EmailOk(o, rows, w.log, email, w.now);
    if i < |rows| {
      assert RowOk(o, rows[i], w.log, email, i, w.now);
    } else {
      NotCompared(w.log, email, i);
    }
  }

  /** How many rows, from the oldest, were created before t. */
  function CreatedBefore(rows: seq<Otp>, t: int): (n: nat)
    ensures n <= |rows|
  {
    if rows == [] then 0
    else if rows[|rows| - 1].createdAt < t then |rows|
    else CreatedBefore(rows[..|rows| - 1], t)
  }

  lemma {:induction false} CreatedBeforeSplits(o: Options, rows: seq<Otp>, t: int, i: nat)
    requires Spaced(o, rows) && o.cooldown > 0 && i < |rows|
    ensures i < CreatedBefore(rows, t) <==> rows[i].createdAt < t
  {
    if i < |rows| - 1 && rows[|rows| - 1].createdAt >= t {
      CreatedBeforeSplits(o, rows[..|rows| - 1], t, i);
    }
  }

  function CeilDiv(x: int, c: int): int
    requires c > 0
  {
    (x + c - 1) / c
  }

  lemma CeilDivIs(x: int, c: nat)
    requires c > 0
    ensures c * (CeilDiv(x, c) - 1) < x <= c * CeilDiv(x, c)
  {
  }

  lemma MulMonotone(m: nat, a: int, b: int)
    requires a <= b
    ensures m * a <= m * b
  {
  }

  lemma DivAtLeast(n: int, a: int, c: nat)
    requires c > 0 && c * n <= a
    ensures n <= a / c
  {
    if n >= a / c + 1 {
      MulMonotone(c, a / c + 1, n);
    }
  }

  lemma DivMonotone(a: int, b: int, c: nat)
    requires a <= b && c > 0
    ensures a / c <= b / c
  {
    DivAtLeast(a / c, b, c);
  }

  lemma MulLess(n: nat, c: nat, x: int)
    requires n > 0 && c > 0 && (n - 1) * c < x
    ensures n <= CeilDiv(x, c)
  {
    assert c * n == (n - 1) * c + c;
    DivAtLeast(n, x + c - 1, c);
  }

  lemma CeilDivMonotone(x: int, y: int, c: nat)
    requires 0 <= x <= y && c > 0
    ensures 0 <= CeilDiv(x, c) <= CeilDiv(y, c)
  {
    DivMonotone(x + c - 1, y + c - 1, c);
    DivMonotone(0, x + c - 1, c);
  }

  lemma {:induction false} Apart(o: Options, rows: seq<Otp>, i: nat, j: nat)
    requires Spaced(o, rows) && i <= j < |rows|
    ensures (j - i) * o.cooldown <= rows[j].createdAt - rows[i].createdAt
    decreases j
  {
    if i < j {
      Apart(o, rows, i, j - 1);
      assert (j - i) * o.cooldown == (j - 1 - i) * o.cooldown + o.cooldown;
    }
  }

  lemma CreatedBeforeGrows(o: Options, rows: seq<Otp>, from: int, to: int)
    requires Spaced(o, rows) && o.cooldown > 0 && from <= to
    ensures CreatedBefore(rows, from) <= CreatedBefore(rows, to)
  {
    hide Spaced, CreatedBefore;
    var lo := CreatedBefore(rows, from);
    if lo > 0 {
      CreatedBeforeSplits(o, rows, from, lo - 1);
      CreatedBeforeSplits(o, rows, to, lo - 1);
    }
  }

  /** Few codes are created in a period. */
  lemma CreatedWithin(o: Options, rows: seq<Otp>, from: int, to: int)
    requires Spaced(o, rows) && o.cooldown > 0 && from <= to
    ensures CreatedBefore(rows, from) <= CreatedBefore(rows, to)
    ensures CreatedBefore(rows, to) - CreatedBefore(rows, from) <= CeilDiv(to - from, o.cooldown)
  {
    hide *;
    var lo, hi := CreatedBefore(rows, from), CreatedBefore(rows, to);
    CreatedBeforeGrows(o, rows, from, to);
    CeilDivMonotone(0, to - from, o.cooldown);
    if lo < hi {
      CreatedBeforeSplits(o, rows, from, lo);
      CreatedBeforeSplits(o, rows, to, hi - 1);
      Apart(o, rows, lo, hi - 1);
      MulLess(hi - lo, o.cooldown, to - from);
    }
  }

  function Unexpired(rows: seq<Otp>, now: int): nat {
    if rows == [] then 0
    else Unexpired(rows[..|rows| - 1], now) + if rows[|rows| - 1].expiresAt > now then 1 else 0
  }

  lemma {:induction false} UnexpiredAreNewest(o: Options, rows: seq<Otp>, now: int)
    requires Spaced(o, rows) && o.cooldown > 0
    requires forall i :: 0 <= i < |rows| ==> rows[i].expiresAt == rows[i].createdAt + o.expire
    ensures Unexpired(rows, now) == |rows| - CreatedBefore(rows, now - o.expire + 1)
  {
    if rows != [] {
      var front := rows[..|rows| - 1];
      UnexpiredAreNewest(o, front, now);
      if rows[|rows| - 1].expiresAt <= now && front != [] {
        CreatedBeforeSplits(o, rows, now - o.expire + 1, |front| - 1);
      }
    }
  }

  /** At no moment are there more than ceil(expire / cooldown) unexpired codes for an email. */
  lemma FewCodesAtOnce(o: Options, es: seq<Event>, email: string)
    requires o.cooldown > 0 && o.expire >= 0
    ensures (var w := Run(o, START, es);
             Unexpired(RowsOf(w.t, email), w.now) <= CeilDiv(o.expire, o.cooldown))
  {
    var w := Run(o, START, es);
    RunKeeps(o, START, es);
    var rows := RowsOf(w.t, email);
    assert EmailOk(o, rows, w.log, email, w.now);
    forall i | 0 <= i < |rows|
      ensures rows[i].expiresAt == rows[i].createdAt + o.expire && rows[i].createdAt <= w.now
    {
      assert RowOk(o, rows[i], w.log, email, i, w.now);
    }
    UnexpiredAreNewest(o, rows, w.now);
    CreatedWithin(o, rows, w.now - o.expire + 1, w.now + 1);
    if rows != [] {
      CreatedBeforeSplits(o, rows, w.now + 1, |rows| - 1);
    }
  }

  /** The comparisons made for an email at moments in [from, to). */
  function ComparedWithin(log: seq<Comparison>, email: string, from: int, to: int): nat {
    if log == [] then 0
    else
      var c := log[|log| - 1];
      ComparedWithin(log[..|log| - 1], email, from, to) + if c.email == email && from <= c.at < to then 1 else 0
  }

  lemma WithinAre(log: seq<Comparison>, c: Comparison, email: string, from: int, to: int)
    ensures ComparedWithin([], email, from, to) == 0
    ensures ComparedWithin(log + [c], email, from, to) ==
      ComparedWithin(log, email, from, to) + if c.email == email && from <= c.at < to then 1 else 0
  {
    assert (log + [c])[..|log|] == log;
  }

  /** The comparisons made with rows lo up to hi of an email. */
  function ComparedRows(log: seq<Comparison>, email: string, lo: nat, hi: nat): nat {
    if log == [] then 0
    else
      var c := log[|log| - 1];
      ComparedRows(log[..|log| - 1], email, lo, hi) + if c.email == email && lo <= c.i < hi then 1 else 0
  }

  lemma {:induction false} ComparedRowsSplit(log: seq<Comparison>, email: string, lo: nat, hi: nat)
    requires lo <= hi
    ensures ComparedRows(log, email, lo, hi + 1) == ComparedRows(log, email, lo, hi) + Compared(log, email, hi)
  {
    if log != [] {
      ComparedRowsSplit(log[..|log| - 1], email, lo, hi);
    }
  }

  lemma {:induction false} NoRowsNoComparisons(log: seq<Comparison>, email: string, lo: nat)
    ensures ComparedRows(log, email, lo, lo) == 0
  {
    if log != [] {
      NoRowsNoComparisons(log[..|log| - 1], email, lo);
    }
  }

  lemma {:induction false} RowsBoundComparisons(o: Options, w: World, email: string, lo: nat, hi: nat)
    requires Inv(o, w) && lo <= hi
    ensures ComparedRows(w.log, email, lo, hi) <= NotNegative(o.maxAttempts) * (hi - lo)
    decreases hi
  {
    if lo == hi {
      NoRowsNoComparisons(w.log, email, lo);
    } else {
      RowsBoundComparisons(o, w, email, lo, hi - 1);
      ComparedRowsSplit(w.log, email, lo, hi - 1);
      CountsBounded(o, w, email, hi - 1);
      var m := NotNegative(o.maxAttempts);
      assert m * (hi - lo) == m * (hi - 1 - lo) + m;
    }
  }

  lemma {:induction false} WindowHasRows(log: seq<Comparison>, email: string, from: int, to: int, lo: nat, hi: nat)
    requires forall c :: c in log && c.email == email && from <= c.at < to ==> lo <= c.i < hi
    ensures ComparedWithin(log, email, from, to) <= ComparedRows(log, email, lo, hi)
  {
    if log != [] {
      assert log[|log| - 1] in log;
      WindowHasRows(log[..|log| - 1], email, from, to, lo, hi);
    }
  }

  lemma ComparedRowsWereAlive(o: Options, w: World, c: Comparison, from: int, to: int)
    requires Inv(o, w) && o.cooldown > 0 && c in w.log && from <= c.at < to
    ensures (var rows := RowsOf(w.t, c.email);
             CreatedBefore(rows, from - o.expire + 1) <= c.i < CreatedBefore(rows, to))
  {
    var rows := RowsOf(w.t, c.email);
    assert EmailOk(o, rows, w.log, c.email, w.now) && LogOk(o, rows, c);
    CreatedBeforeSplits(o, rows, to, c.i);
    CreatedBeforeSplits(o, rows, from - o.expire + 1, c.i);
  }

  /** The rows that can be compared in a window, and what they allow. */
  lemma WindowIsRationed(o: Options, w: World, email: string, from: int, to: int) returns (n: nat)
    requires Inv(o, w) && o.cooldown > 0 && o.expire >= 0 && from <= to && from - o.expire + 1 <= to
    ensures ComparedWithin(w.log, email, from, to) <= NotNegative(o.maxAttempts) * n
    ensures n <= CeilDiv(to - (from - o.expire + 1), o.cooldown)
  {
    hide *;
    var rows := RowsOf(w.t, email);
    var lo, hi := CreatedBefore(rows, from - o.expire + 1), CreatedBefore(rows, to);
    forall c | c in w.log && c.email == email && from <= c.at < to
      ensures lo <= c.i < hi
    {
      ComparedRowsWereAlive(o, w, c, from, to);
    }
    WindowHasRows(w.log, email, from, to, lo, hi);
    CountsBounded(o, w, email, 0);
    CreatedWithin(o, rows, from - o.expire + 1, to);
    RowsBoundComparisons(o, w, email, lo, hi);
    n := hi - lo;
  }

  /** In any window of length W at most maxAttempts * ceil((expire + W) / cooldown) guesses are
      compared, however many codes are asked for and whatever is presented. */
  lemma GuessesAreBounded(o: Options, es: seq<Event>, email: string, from: int, W: nat)
    requires o.cooldown > 0 && o.expire >= 0
    ensures ComparedWithin(Run(o, START, es).log, email, from, from + W)
         <= NotNegative(o.maxAttempts) * CeilDiv(o.expire + W, o.cooldown)
  {
    hide *;
    StartOk(o);
    RunKeeps(o, START, es);
    var n := 0;
    if o.expire == 0 && W == 0 {
      NoMoments(Run(o, START, es).log, email, from);
      CeilDivMonotone(0, o.expire + W, o.cooldown);
    } else {
      n := WindowIsRationed(o, Run(o, START, es), email, from, from + W);
      CeilDivMonotone(o.expire + W - 1, o.expire + W, o.cooldown);
      assert from + W - (from - o.expire + 1) == o.expire + W - 1;
    }
    MulMonotone(NotNegative(o.maxAttempts), n, CeilDiv(o.expire + W, o.cooldown));
  }

  lemma StartOk(o: Options)
    ensures Inv(o, START)
  {
  }

  lemma {:induction false} NoMoments(log: seq<Comparison>, email: string, from: int)
    ensures ComparedWithin(log, email, from, from) == 0
  {
    if log != [] {
      NoMoments(log[..|log| - 1], email, from);
    }
  }
}
