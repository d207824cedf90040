/** VerifyEmailOTP (anmates-api/services/auth.go) with its lookup and its update as two steps, for the
    codes of one email and at most k calls at once: how often a code can be compared and accepted. */
module OtpRaces {
  import opened Wrappers
  import opened O = Otp
  import opened Pascal

  datatype Call = Call(id: nat, hash: string)

  /** What a call's lookup found: the row's position and the row. */
  datatype Found = Found(i: nat, row: Otp)

  /** `found` are the calls between lookup and update; `compared` and `accepted` list the rows of the
      comparisons made and of the accepted ones. */
  datatype Race = Race(
    rows: seq<Otp>,
    found: map<Call, Found>,
    compared: multiset<nat>,
    accepted: multiset<nat>,
    now: int)

  const START: Race := Race([], map[], multiset{}, multiset{}, 0)

  datatype Event = Elapse(d: nat) | Mint(hash: string) | Lookup(c: Call) | Update(c: Call)

  ghost predicate Enabled(w: Race, e: Event) {
    match e
    case Lookup(c) => c !in w.found && NewestUsable(w.rows, w.now).Some?
    case Update(c) => c in w.found && w.found[c].i < |w.rows|
    case _ => true
  }

  /** The update writes the count of the lookup plus one, whatever the row holds by now. */
  function Written(now: Otp, seen: Otp, outcome: Outcome): Otp {
    match outcome
    case NoCode => now
    case Exhausted => now.(consumed := true)
    case Wrong => now.(attempts := seen.attempts + 1)
    case Accepted => now.(attempts := seen.attempts + 1, consumed := true)
  }

  ghost function Step(o: Options, w: Race, e: Event): Race
    requires Enabled(w, e)
  {
    match e
    case Elapse(d) => w.(now := w.now + d)
    case Mint(hash) => if CoolingDown(o, w.rows, w.now) then w else w.(rows := O.Issue(o, w.rows, hash, w.now))
    case Lookup(c) =>
      var i := NewestUsable(w.rows, w.now).value;
      w.(found := w.found[c := Found(i, w.rows[i])])
    case Update(c) =>
      var f := w.found[c];
      var outcome := Judge(o, f.row, c.hash);
      Race(
        w.rows[f.i := Written(w.rows[f.i], f.row, outcome)],
        w.found - {c},
        w.compared + if outcome.Wrong? || outcome.Accepted? then multiset{f.i} else multiset{},
        w.accepted + if outcome.Accepted? then multiset{f.i} else multiset{},
        w.now)
  }

  /** A run in which at most k calls are between lookup and update at any moment. */
  ghost predicate Runs(o: Options, k: nat, w: Race, es: seq<Event>, w': Race)
    decreases |es|
  {
    && |w.found| <= k
    && if es == [] then w == w' else Enabled(w, es[0]) && Runs(o, k, Step(o, w, es[0]), es[1..], w')
  }

  lemma TimePasses(o: Options, w: Race, d: nat)
    ensures Step(o, w, Elapse(d)) == w.(now := w.now + d)
  {
  }

  function Limit(o: Options): nat { NotNegative(o.maxAttempts) }

  // ---- How often a code can be compared ----------------------------------------------------

  function Holders(w: Race, i: nat): set<Call> { set c | c in w.found && w.found[c].i == i }

  /** The calls that hold row i with a count below v, and with one of at least v. */
  function Below(w: Race, i: nat, v: int): set<Call> {
    set c | c in w.found && w.found[c].i == i && w.found[c].row.attempts < v
  }

  function AtLeast(w: Race, i: nat, v: int): set<Call> {
    set c | c in w.found && w.found[c].i == i && w.found[c].row.attempts >= v
  }

  /** The count that a lookup of row i would find; a consumed row is not found again. */
  function Current(o: Options, r: Otp): int { if r.consumed then Limit(o) else r.attempts }

  /** How many of k calls hold row i with a count of at least v, or would if they looked it up now. */
  function Level(o: Options, k: nat, w: Race, i: nat, v: int): int
    requires i < |w.rows|
  {
    if v <= Current(o, w.rows[i]) then k - |Below(w, i, v)| else |AtLeast(w, i, v)|
  }

  function Levels(o: Options, k: nat, w: Race, i: nat): (ls: seq<int>)
    requires i < |w.rows|
    ensures |ls| == Limit(o) && forall j :: 0 <= j < |ls| ==> ls[j] == Level(o, k, w, i, j + 1)
  {
    seq(Limit(o), j requires 0 <= j < Limit(o) => Level(o, k, w, i, j + 1))
  }

  ghost predicate RowOk(o: Options, k: nat, w: Race, i: nat) {
    if i < |w.rows| then
      0 <= w.rows[i].attempts <= Limit(o) && w.compared[i] <= Progress(Levels(o, k, w, i))
    else w.compared[i] == 0
  }

  ghost predicate Inv(o: Options, k: nat, w: Race) {
    && (forall i :: RowOk(o, k, w, i))
    && (forall c :: c in w.found ==> w.found[c].i < |w.rows| && w.found[c].row.attempts >= 0)
  }

  lemma {:induction false} SubsetSize<T>(a: set<T>, b: set<T>)
    requires a <= b
    ensures |a| <= |b|
  {
    if a != {} {
      var x :| x in a;
      SubsetSize(a - {x}, b - {x});
    }
  }

  lemma HoldersAreCalls(w: Race, i: nat, v: int)
    ensures |Below(w, i, v)| + |AtLeast(w, i, v)| == |Holders(w, i)| <= |w.found|
  {
    assert Below(w, i, v) + AtLeast(w, i, v) == Holders(w, i);
    assert Below(w, i, v) !! AtLeast(w, i, v);
    SubsetSize(Holders(w, i), w.found.Keys);
    assert |w.found.Keys| == |w.found|;
  }

  lemma LevelAtMost(o: Options, k: nat, w: Race, i: nat, v: int)
    requires i < |w.rows| && |w.found| <= k
    ensures 0 <= Level(o, k, w, i, v) <= k - |Below(w, i, v)|
  {
    HoldersAreCalls(w, i, v);
  }

  lemma LevelsFall(o: Options, k: nat, w: Race, i: nat, u: int, v: int)
    requires i < |w.rows| && |w.found| <= k && u <= v
    ensures Level(o, k, w, i, v) <= Level(o, k, w, i, u)
  {
    LevelAtMost(o, k, w, i, v);
    SubsetSize(Below(w, i, u), Below(w, i, v));
    SubsetSize(AtLeast(w, i, v), AtLeast(w, i, u));
  }

  /** The update of c writes count s + 1 (or consumes the row) and so raises level s + 1. */
  lemma UpdateRaises(o: Options, k: nat, w: Race, w': Race, c: Call, v: int)
    requires |w.found| <= k && c in w.found && w.found[c].i < |w.rows| == |w'.rows| && w'.found == w.found - {c}
    requires v <= Current(o, w'.rows[w.found[c].i])
    ensures Level(o, k, w, w.found[c].i, v) <= Level(o, k, w', w.found[c].i, v)
    ensures w.found[c].row.attempts < v ==> Level(o, k, w, w.found[c].i, v) < Level(o, k, w', w.found[c].i, v)
  {
    var i := w.found[c].i;
    LevelAtMost(o, k, w, i, v);
    assert Below(w', i, v) == Below(w, i, v) - {c};
  }

  lemma ComparisonWrites(o: Options, w: Race, c: Call) returns (w': Race)
    requires Enabled(w, Update(c)) && w.found[c].row.attempts >= 0
    requires !Judge(o, w.found[c].row, c.hash).Exhausted?
    ensures w' == Step(o, w, Update(c)) && |w'.rows| == |w.rows| && w'.found == w.found - {c}
    ensures (var i, s := w.found[c].i, w.found[c].row.attempts;
             && w'.compared[i] == w.compared[i] + 1 && w'.rows[i].attempts == s + 1
             && s + 1 <= Limit(o) && s + 1 <= Current(o, w'.rows[i]))
  {
    w' := Step(o, w, Update(c));
  }

  lemma ComparisonAdvances(o: Options, k: nat, w: Race, c: Call)
    requires |w.found| <= k && Enabled(w, Update(c)) && RowOk(o, k, w, w.found[c].i)
    requires w.found[c].row.attempts >= 0 && !Judge(o, w.found[c].row, c.hash).Exhausted?
    ensures RowOk(o, k, Step(o, w, Update(c)), w.found[c].i)
  {
    var i, s := w.found[c].i, w.found[c].row.attempts;
    hide Step, Judge, Progress, Current, Level, Limit;
    var w' := ComparisonWrites(o, w, c);
    var ls, ls' := Levels(o, k, w, i), Levels(o, k, w', i);
    forall x | 0 <= x <= s
      ensures ls[x] <= ls'[x] && (x == s ==> ls[x] < ls'[x])
    {
      UpdateRaises(o, k, w, w', c, x + 1);
    }
    forall x | s < x < |ls|
      ensures ls[x] <= ls[s]
    {
      LevelsFall(o, k, w, i, s + 1, x + 1);
    }
    LevelAtMost(o, k, w, i, s + 1);
    ProgressGrows(ls, ls', s);
  }

  /** A call that is out of guesses consumes the row, and no level falls. */
  lemma ExhaustionKeeps(o: Options, k: nat, w: Race, c: Call)
    requires |w.found| <= k && Enabled(w, Update(c)) && RowOk(o, k, w, w.found[c].i)
    requires Judge(o, w.found[c].row, c.hash).Exhausted?
    ensures RowOk(o, k, Step(o, w, Update(c)), w.found[c].i)
  {
    var i, w' := w.found[c].i, Step(o, w, Update(c));
    assert Current(o, w'.rows[i]) == Limit(o) && |w'.rows| == |w.rows| && w'.found == w.found - {c};
    hide Step, Progress, Current;
    var ls, ls' := Levels(o, k, w, i), Levels(o, k, w', i);
    forall x | 0 <= x < |ls|
      ensures ls[x] <= ls'[x]
    {
      UpdateRaises(o, k, w, w', c, x + 1);
    }
    ProgressMonotone(ls, ls');
  }

  lemma LevelsUnchanged(o: Options, k: nat, w: Race, w': Race, i: nat)
    requires RowOk(o, k, w, i) && i < |w.rows| && i < |w'.rows| && w'.rows[i] == w.rows[i]
    requires w'.compared[i] == w.compared[i]
    requires forall v :: v <= Current(o, w.rows[i]) ==> Below(w', i, v) == Below(w, i, v)
    requires forall v :: v > Current(o, w.rows[i]) ==> AtLeast(w', i, v) == AtLeast(w, i, v)
    ensures RowOk(o, k, w', i)
  {
    hide Progress;
    assert Levels(o, k, w', i) == Levels(o, k, w, i);
  }

  /** Calls of other rows, and lookups of this one, do not move its levels. */
  lemma LookupKeeps(o: Options, k: nat, w: Race, c: Call, i: nat)
    requires Enabled(w, Lookup(c)) && RowOk(o, k, w, i)
    ensures RowOk(o, k, Step(o, w, Lookup(c)), i)
  {
    var w' := Step(o, w, Lookup(c));
    if i < |w.rows| {
      forall v
        ensures v <= Current(o, w.rows[i]) ==> Below(w', i, v) == Below(w, i, v)
        ensures v > Current(o, w.rows[i]) ==> AtLeast(w', i, v) == AtLeast(w, i, v)
      {
      }
      hide Step, Current;
      LevelsUnchanged(o, k, w, w', i);
    }
  }

  lemma OtherRowKept(o: Options, k: nat, w: Race, c: Call, i: nat)
    requires Enabled(w, Update(c)) && w.found[c].i != i && RowOk(o, k, w, i)
    ensures RowOk(o, k, Step(o, w, Update(c)), i)
  {
    var w' := Step(o, w, Update(c));
    if i < |w.rows| {
      forall v
        ensures Below(w', i, v) == Below(w, i, v) && AtLeast(w', i, v) == AtLeast(w, i, v)
      {
      }
      hide Step, Current;
      LevelsUnchanged(o, k, w, w', i);
    }
  }

  lemma OthersKeep(o: Options, k: nat, w: Race, e: Event, i: nat)
    requires (e.Elapse? || e.Mint?) && RowOk(o, k, w, i)
    ensures RowOk(o, k, Step(o, w, e), i)
  {
    var w' := Step(o, w, e);
    if i < |w.rows| {
      hide Current;
      LevelsUnchanged(o, k, w, w', i);
    }
  }

  lemma StepKeeps(o: Options, k: nat, w: Race, e: Event)
    requires Inv(o, k, w) && |w.found| <= k && Enabled(w, e)
    ensures Inv(o, k, Step(o, w, e))
  {
    var w' := Step(o, w, e);
    forall i | 0 <= i < |w.rows|
      ensures w.rows[i].attempts >= 0
    {
      assert RowOk(o, k, w, i);
    }
    FoundKept(o, w, e);
    hide Step, RowOk;
    forall i
      ensures RowOk(o, k, w', i)
    {
      assert RowOk(o, k, w, i);
      match e
      case Lookup(c) => LookupKeeps(o, k, w, c, i);
      case Update(c) =>
        if w.found[c].i != i {
          OtherRowKept(o, k, w, c, i);
        } else if Judge(o, w.found[c].row, c.hash).Exhausted? {
          ExhaustionKeeps(o, k, w, c);
        } else {
          ComparisonAdvances(o, k, w, c);
        }
      case _ => OthersKeep(o, k, w, e, i);
    }
  }

  lemma FoundKept(o: Options, w: Race, e: Event)
    requires Enabled(w, e) && forall c :: c in w.found ==> w.found[c].i < |w.rows| && w.found[c].row.attempts >= 0
    requires forall i :: 0 <= i < |w.rows| ==> w.rows[i].attempts >= 0
    ensures (var w' := Step(o, w, e);
             forall c :: c in w'.found ==> w'.found[c].i < |w'.rows| && w'.found[c].row.attempts >= 0)
  {
  }

  lemma {:induction false} RunKeeps(o: Options, k: nat, w: Race, es: seq<Event>, w': Race)
    requires Inv(o, k, w) && Runs(o, k, w, es, w')
    ensures Inv(o, k, w')
    decreases |es|
  {
    hide Inv;
    if es != [] {
      StepKeeps(o, k, w, es[0]);
      RunKeeps(o, k, Step(o, w, es[0]), es[1..], w');
    }
  }

  lemma StartOk(o: Options, k: nat)
    ensures Inv(o, k, START)
  {
  }

  /** With at most k calls at once a code is compared at most this often. */
  lemma ComparedAtMost(o: Options, k: nat, es: seq<Event>, w: Race, i: nat)
    requires Runs(o, k, START, es, w)
    ensures w.compared[i] <= Ways(Limit(o), k) - 1
  {
    StartOk(o, k);
    RunKeeps(o, k, START, es, w);
    assert RowOk(o, k, w, i);
    if i < |w.rows| {
      forall j | 0 <= j < Limit(o)
        ensures Levels(o, k, w, i)[j] <= k
      {
        RunEndsWithin(o, k, START, es, w);
        LevelAtMost(o, k, w, i, j + 1);
      }
      ProgressBounded(Levels(o, k, w, i), k);
    }
  }

  lemma {:induction false} RunEndsWithin(o: Options, k: nat, w: Race, es: seq<Event>, w': Race)
    requires Runs(o, k, w, es, w')
    ensures |w'.found| <= k
    decreases |es|
  {
    if es != [] {
      RunEndsWithin(o, k, Step(o, w, es[0]), es[1..], w');
    }
  }

  // ---- That often it can be compared -------------------------------------------------------

  lemma Prepend(o: Options, k: nat, w: Race, e: Event, es: seq<Event>, w': Race) returns (all: seq<Event>)
    requires |w.found| <= k && Enabled(w, e) && Runs(o, k, Step(o, w, e), es, w')
    ensures Runs(o, k, w, all, w')
  {
    all := [e] + es;
    assert all[1..] == es;
  }

  lemma {:induction false} Join(o: Options, k: nat, w: Race, es: seq<Event>, v: Race, more: seq<Event>, w': Race)
    returns (all: seq<Event>)
    requires Runs(o, k, w, es, v) && Runs(o, k, v, more, w')
    ensures Runs(o, k, w, all, w')
    decreases |es|
  {
    if es == [] {
      all := more;
    } else {
      all := Join(o, k, Step(o, w, es[0]), es[1..], v, more, w');
      all := Prepend(o, k, w, es[0], all, w');
    }
  }

  /** One code, not yet consumed or expired, with `a` guesses counted. */
  predicate OneCode(o: Options, w: Race, hash: string, a: nat) {
    && |w.rows| == 1 && w.rows[0].codeHash == hash && w.rows[0].attempts == a
    && Usable(w.rows[0], w.now) && a <= Limit(o)
  }

  /** The calls that guess `guess`, below number n, are not in progress. */
  predicate Idle(found: map<Call, Found>, guess: string, n: nat) {
    forall j: nat :: j < n ==> Call(j, guess) !in found
  }

  lemma WrongLookup(o: Options, k: nat, w: Race, hash: string, a: nat, guess: string, n: nat) returns (w': Race)
    requires OneCode(o, w, hash, a) && n > 0 && |w.found| + n <= k && Idle(w.found, guess, n)
    ensures Enabled(w, Lookup(Call(n - 1, guess))) && w' == Step(o, w, Lookup(Call(n - 1, guess)))
    ensures OneCode(o, w', hash, a) && |w'.found| + (n - 1) <= k && Idle(w'.found, guess, n - 1)
    ensures w'.found == w.found[Call(n - 1, guess) := Found(0, w.rows[0])] && w'.compared == w.compared
  {
    w' := Step(o, w, Lookup(Call(n - 1, guess)));
    assert w'.found.Keys == w.found.Keys + {Call(n - 1, guess)};
  }

  lemma WrongUpdate(o: Options, w: Race, hash: string, a: nat, b: nat, guess: string, c: Call, r: Otp) returns (w': Race)
    requires OneCode(o, w, hash, b) && a < Limit(o) && guess != hash && c.hash == guess
    requires c in w.found && w.found[c] == Found(0, r) && r.codeHash == hash && r.attempts == a
    ensures Enabled(w, Update(c)) && w' == Step(o, w, Update(c))
    ensures OneCode(o, w', hash, a + 1) && w'.found == w.found - {c}
    ensures w'.compared[0] == w.compared[0] + 1
  {
    w' := Step(o, w, Update(c));
  }

  lemma PutAndRemove(found: map<Call, Found>, c: Call, f: Found)
    requires c !in found
    ensures found[c := f] - {c} == found
  {
  }

  /** c looks up, others run, c updates, others run. */
  lemma Around(o: Options, k: nat, w: Race, c: Call, used: seq<Event>, v: Race, rest: seq<Event>, w': Race)
    returns (es: seq<Event>)
    requires |w.found| <= k && Enabled(w, Lookup(c)) && Runs(o, k, Step(o, w, Lookup(c)), used, v)
    requires |v.found| <= k && Enabled(v, Update(c)) && Runs(o, k, Step(o, v, Update(c)), rest, w')
    ensures Runs(o, k, w, es, w')
  {
    hide *;
    es := Prepend(o, k, v, Update(c), rest, w');
    es := Join(o, k, Step(o, w, Lookup(c)), used, v, es, w');
    es := Prepend(o, k, w, Lookup(c), es, w');
  }

  lemma NextCall(o: Options, w: Race, hash: string, a: nat, guess: string, n: nat)
    requires OneCode(o, w, hash, a) && Idle(w.found, guess, n) && n > 0
    ensures Call(n - 1, guess) !in w.found && |w.rows| == 1 && w.rows[0].attempts == a && w.rows[0].codeHash == hash
  {
  }

  lemma NothingLeft(o: Options, k: nat, w: Race, a: nat, n: nat)
    requires |w.found| <= k && a <= Limit(o) && (n == 0 || a == Limit(o))
    ensures Runs(o, k, w, [], w) && Ways(Limit(o) - a, n) == 1
  {
  }

  /** n calls use up what is left of a code: one of them looks it up and waits while the others use it
      up, sets the count back by its update, and so on. */
  lemma {:induction false} UseUp(o: Options, k: nat, w: Race, hash: string, a: nat, guess: string, n: nat)
    returns (es: seq<Event>, w': Race, b: nat)
    requires a <= Limit(o) && OneCode(o, w, hash, a) && guess != hash && |w.found| + n <= k && Idle(w.found, guess, n)
    ensures Runs(o, k, w, es, w') && OneCode(o, w', hash, b)
    ensures w'.found == w.found && w'.compared[0] == w.compared[0] + Ways(Limit(o) - a, n) - 1
    decreases Limit(o) - a, n
  {
    hide *;
    if n == 0 || a == Limit(o) {
      NothingLeft(o, k, w, a, n);
      es, w', b := [], w, a;
    } else {
      var c := Call(n - 1, guess);
      NextCall(o, w, hash, a, guess, n);
      WaysSplit(Limit(o) - a, n);
      var held := WrongLookup(o, k, w, hash, a, guess, n);
      var used, v, d := UseUp(o, k, held, hash, a, guess, n - 1);
      var freed := WrongUpdate(o, v, hash, a, d, guess, c, w.rows[0]);
      PutAndRemove(w.found, c, Found(0, w.rows[0]));
      var rest;
      rest, w', b := UseUp(o, k, freed, hash, a + 1, guess, n);
      es := Around(o, k, w, c, used, v, rest, w');
    }
  }

  /** A code just minted. */
  function Minted(o: Options, hash: string): Race {
    Race([Otp(hash, 0, o.expire, 0, false)], map[], multiset{}, multiset{}, 0)
  }

  lemma MintFirst(o: Options, k: nat, hash: string, es: seq<Event>, w: Race) returns (all: seq<Event>)
    requires Runs(o, k, Minted(o, hash), es, w)
    ensures Runs(o, k, START, all, w)
  {
    hide Runs;
    assert Step(o, START, Mint(hash)) == Minted(o, hash);
    all := Prepend(o, k, START, Mint(hash), es, w);
  }

  /** With k calls at once a code can be compared exactly as often as ComparedAtMost allows. */
  lemma ComparedThatOften(o: Options, k: nat, hash: string) returns (es: seq<Event>, w: Race)
    requires o.expire > 0
    ensures Runs(o, k, START, es, w) && w.compared[0] == Ways(Limit(o), k) - 1
  {
    hide Runs, Ways;
    var b;
    es, w, b := UseUp(o, k, Minted(o, hash), hash, 0, hash + "0", k);
    es := MintFirst(o, k, hash, es, w);
  }

  /** At the server's limit of five, two calls at once can have 20 guesses of a code compared, and
      never more. */
  lemma ServerLimit(o: Options, hash: string) returns (es: seq<Event>, w: Race)
    requires o.maxAttempts == 5 && o.expire > 0
    ensures Runs(o, 2, START, es, w) && w.compared[0] == 20
    ensures forall fs, v, i: nat :: Runs(o, 2, START, fs, v) ==> v.compared[i] <= 20
  {
    hide Runs;
    assert Limit(o) == 5 && Ways(5, 2) == 21;
    es, w := ComparedThatOften(o, 2, hash);
    forall fs, v, i: nat | Runs(o, 2, START, fs, v)
      ensures v.compared[i] <= 20
    {
      ComparedAtMost(o, 2, fs, v, i);
    }
  }

  // ---- How often a code can be accepted ----------------------------------------------------

  /** Once a row is consumed it is accepted only by the calls that still hold it. */
  ghost predicate AcceptedOk(k: nat, w: Race, i: nat) {
    && |Holders(w, i)| <= k
    && if i < |w.rows| && w.rows[i].consumed then w.accepted[i] + |Holders(w, i)| <= k else w.accepted[i] == 0
  }

  ghost predicate AcceptedInv(k: nat, w: Race) {
    (forall i :: AcceptedOk(k, w, i)) && forall c :: c in w.found ==> w.found[c].i < |w.rows|
  }

  lemma UpdateKeepsAccepted(o: Options, k: nat, w: Race, c: Call, i: nat)
    requires Enabled(w, Update(c)) && AcceptedOk(k, w, i)
    ensures AcceptedOk(k, Step(o, w, Update(c)), i)
  {
    var w' := Step(o, w, Update(c));
    if w.found[c].i == i {
      assert Holders(w', i) == Holders(w, i) - {c};
    } else {
      assert Holders(w', i) == Holders(w, i);
    }
  }

  lemma LookupKeepsAccepted(o: Options, k: nat, w: Race, c: Call, i: nat)
    requires Enabled(w, Lookup(c)) && AcceptedOk(k, w, i) && |Step(o, w, Lookup(c)).found| <= k
    ensures AcceptedOk(k, Step(o, w, Lookup(c)), i)
  {
    var w' := Step(o, w, Lookup(c));
    HoldersAreCalls(w', i, 0);
    if w'.found[c].i != i {
      assert Holders(w', i) == Holders(w, i);
    }
  }

  lemma OthersKeepAccepted(o: Options, k: nat, w: Race, e: Event, i: nat)
    requires (e.Elapse? || e.Mint?) && AcceptedOk(k, w, i)
    ensures AcceptedOk(k, Step(o, w, e), i)
  {
    assert Holders(Step(o, w, e), i) == Holders(w, i);
  }

  lemma FoundInRange(o: Options, w: Race, e: Event)
    requires Enabled(w, e) && forall c :: c in w.found ==> w.found[c].i < |w.rows|
    ensures (var w' := Step(o, w, e); forall c :: c in w'.found ==> w'.found[c].i < |w'.rows|)
  {
  }

  lemma StepKeepsAccepted(o: Options, k: nat, w: Race, e: Event)
    requires AcceptedInv(k, w) && Enabled(w, e) && |Step(o, w, e).found| <= k
    ensures AcceptedInv(k, Step(o, w, e))
  {
    FoundInRange(o, w, e);
    hide Step, AcceptedOk;
    forall i
      ensures AcceptedOk(k, Step(o, w, e), i)
    {
      assert AcceptedOk(k, w, i);
      match e
      case Lookup(c) => LookupKeepsAccepted(o, k, w, c, i);
      case Update(c) => UpdateKeepsAccepted(o, k, w, c, i);
      case _ => OthersKeepAccepted(o, k, w, e, i);
    }
  }

  lemma {:induction false} RunKeepsAccepted(o: Options, k: nat, w: Race, es: seq<Event>, w': Race)
    requires AcceptedInv(k, w) && Runs(o, k, w, es, w')
    ensures AcceptedInv(k, w')
    decreases |es|
  {
    hide AcceptedInv;
    if es != [] {
      StepKeepsAccepted(o, k, w, es[0]);
      RunKeepsAccepted(o, k, Step(o, w, es[0]), es[1..], w');
    }
  }

  /** With at most k calls at once a code is accepted at most k times. */
  lemma AcceptedAtMost(o: Options, k: nat, es: seq<Event>, w: Race, i: nat)
    requires Runs(o, k, START, es, w)
    ensures w.accepted[i] <= k
  {
    assert forall i :: Holders(START, i) == {};
    RunKeepsAccepted(o, k, START, es, w);
    assert AcceptedOk(k, w, i);
  }

  lemma RightUpdate(o: Options, w: Race, hash: string, c: Call, r: Otp) returns (w': Race)
    requires |w.rows| == 1 && c in w.found && w.found[c] == Found(0, r)
    requires c.hash == r.codeHash && 0 <= r.attempts < Limit(o)
    ensures Enabled(w, Update(c)) && w' == Step(o, w, Update(c))
    ensures |w'.rows| == 1 && w'.found == w.found - {c} && w'.accepted[0] == w.accepted[0] + 1
  {
    w' := Step(o, w, Update(c));
  }

  /** n calls look the code up before any of them updates. */
  lemma {:induction false} AcceptAll(o: Options, k: nat, w: Race, hash: string, n: nat) returns (es: seq<Event>, w': Race)
    requires OneCode(o, w, hash, 0) && Limit(o) > 0 && |w.found| + n <= k && Idle(w.found, hash, n)
    ensures Runs(o, k, w, es, w') && w'.found == w.found
    ensures |w'.rows| == 1 && w'.accepted[0] == w.accepted[0] + n
    decreases n
  {
    if n == 0 {
      es, w' := [], w;
    } else {
      var c := Call(n - 1, hash);
      assert Step(o, w, Lookup(c)).accepted == w.accepted && |w.rows| == 1;
      hide *;
      NextCall(o, w, hash, 0, hash, n);
      var held := WrongLookup(o, k, w, hash, 0, hash, n);
      var more, v := AcceptAll(o, k, held, hash, n - 1);
      w' := RightUpdate(o, v, hash, c, w.rows[0]);
      PutAndRemove(w.found, c, Found(0, w.rows[0]));
      NothingLeft(o, k, w', 0, 0);
      es := Around(o, k, w, c, more, v, [], w');
    }
  }

  /** And it can be: k calls that present the right code at once are all accepted. */
  lemma AcceptedThatOften(o: Options, k: nat, hash: string) returns (es: seq<Event>, w: Race)
    requires o.expire > 0 && o.maxAttempts > 0
    ensures Runs(o, k, START, es, w) && w.accepted[0] == k
  {
    hide Runs;
    es, w := AcceptAll(o, k, Minted(o, hash), hash, k);
    es := MintFirst(o, k, hash, es, w);
  }

  // ---- The exact condition -----------------------------------------------------------------

  /** No code was compared more often than the limit, or accepted twice. */
  ghost predicate Rationed(o: Options, w: Race) {
    forall i: nat :: w.compared[i] <= Limit(o) && w.accepted[i] <= 1
  }

  ghost predicate BudgetHolds(o: Options, k: nat) {
    forall es, w :: Runs(o, k, START, es, w) ==> Rationed(o, w)
  }

  /** Without a moment in which a code is valid nothing is ever compared. */
  lemma {:induction false} NothingToCompare(o: Options, k: nat, w: Race, es: seq<Event>, w': Race)
    requires o.expire <= 0 && w.found == map[] && forall r :: r in w.rows ==> r.expiresAt <= w.now
    requires Runs(o, k, w, es, w')
    ensures w'.compared == w.compared && w'.accepted == w.accepted
    decreases |es|
  {
    if es != [] {
      NothingToCompare(o, k, Step(o, w, es[0]), es[1..], w');
    }
  }

  lemma {:induction false} AcceptedAreCompared(o: Options, k: nat, w: Race, es: seq<Event>, w': Race)
    requires w.accepted <= w.compared && Runs(o, k, w, es, w')
    ensures w'.accepted <= w'.compared
    decreases |es|
  {
    if es != [] {
      AcceptedAreCompared(o, k, Step(o, w, es[0]), es[1..], w');
    }
  }

  lemma BudgetKept(o: Options, k: nat, es: seq<Event>, w: Race)
    requires Runs(o, k, START, es, w) && (k <= 1 || o.expire <= 0 || o.maxAttempts <= 0)
    ensures Rationed(o, w)
  {
    hide Runs;
    if o.expire <= 0 {
      NothingToCompare(o, k, START, es, w);
    } else {
      AcceptedAreCompared(o, k, START, es, w);
      if k <= 1 {
        WaysOfOne(Limit(o));
        WaysGrow(Limit(o), k, 1);
      }
      forall i: nat
        ensures w.compared[i] <= Limit(o) && w.accepted[i] <= 1
      {
        ComparedAtMost(o, k, es, w, i);
        AcceptedAtMost(o, k, es, w, i);
      }
    }
  }

  /** The budget holds if and only if calls for one email come one at a time (or no code is ever valid,
      or no guess is ever allowed). */
  lemma BudgetHoldsIff(o: Options, k: nat)
    ensures BudgetHolds(o, k) <==> k <= 1 || o.expire <= 0 || o.maxAttempts <= 0
  {
    if k <= 1 || o.expire <= 0 || o.maxAttempts <= 0 {
      forall es, w | Runs(o, k, START, es, w)
        ensures Rationed(o, w)
      {
        BudgetKept(o, k, es, w);
      }
    } else {
      var es, w := ComparedThatOften(o, k, "");
      WaysExceed(Limit(o), k);
      assert w.compared[0] > Limit(o);
    }
  }

  // ---- Calls that overlap without disturbing each other ------------------------------------

  /** Every update finds its row as the lookup did. */
  ghost predicate Undisturbed(o: Options, w: Race, es: seq<Event>)
    decreases |es|
  {
    es != [] && Enabled(w, es[0]) ==>
      && (es[0].Update? ==> w.rows[w.found[es[0].c].i] == w.found[es[0].c].row)
      && Undisturbed(o, Step(o, w, es[0]), es[1..])
  }

  predicate CountedAt(o: Options, w: Race, i: nat) {
    if i < |w.rows| then
      w.compared[i] == w.rows[i].attempts <= Limit(o) && w.accepted[i] <= (if w.rows[i].consumed then 1 else 0)
    else w.compared[i] == 0 == w.accepted[i]
  }

  ghost predicate AllCounted(o: Options, w: Race) {
    (forall i :: CountedAt(o, w, i)) && forall c :: c in w.found ==> !w.found[c].row.consumed
  }

  lemma StepCounts(o: Options, w: Race, e: Event)
    requires AllCounted(o, w) && Enabled(w, e)
    requires e.Update? ==> w.rows[w.found[e.c].i] == w.found[e.c].row
    ensures AllCounted(o, Step(o, w, e))
  {
    forall i
      ensures CountedAt(o, Step(o, w, e), i)
    {
      assert CountedAt(o, w, i);
    }
  }

  lemma {:induction false} RunCounts(o: Options, k: nat, w: Race, es: seq<Event>, w': Race)
    requires AllCounted(o, w) && Runs(o, k, w, es, w') && Undisturbed(o, w, es)
    ensures AllCounted(o, w')
    decreases |es|
  {
    hide AllCounted;
    if es != [] {
      StepCounts(o, w, es[0]);
      RunCounts(o, k, Step(o, w, es[0]), es[1..], w');
    }
  }

  /** However many calls overlap: if every update finds its row as the lookup did, the budget holds. */
  lemma UndisturbedGuessesAreRationed(o: Options, k: nat, es: seq<Event>, w: Race)
    requires Runs(o, k, START, es, w) && Undisturbed(o, START, es)
    ensures Rationed(o, w)
  {
    RunCounts(o, k, START, es, w);
    forall i: nat
      ensures w.compared[i] <= Limit(o) && w.accepted[i] <= 1
    {
      assert CountedAt(o, w, i);
    }
  }
}
