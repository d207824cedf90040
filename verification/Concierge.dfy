/** The prewarm / fire protocol of anmates-api/services/concierge.go: any number of prewarm and fire
    goroutines for any matches on any number of replicas. Replicas share only the database, where
    a partial unique index allows one `fired` run per match. */
module Concierge {
  import opened Wrappers
  import opened ConciergeCache

  /** A goroutine: a prewarm or a fire for one match on one replica. */
  datatype Task = Task(id: nat, replica: Id, matchID: Id)

  datatype Slot = Slot(replica: Id, matchID: Id)

  function At(t: Task): Slot { Slot(t.replica, t.matchID) }

  /** Skipped prewarms never claimed; Closing has unregistered but not yet closed its channel. */
  datatype WarmPhase = WarmFresh | Skipped | Claiming | Calling | Storing | Cleaning | Closing | Finished

  /** `saw` is the prewarm whose closing channel released the fire. `Holding` has a card to post.
      `Expired` ran out of time while waiting: its context is done, so whatever it tries next fails. */
  datatype FirePhase =
    | FireFresh
    | Looking
    | Waiting(on: Task)
    | Expired
    | Taking(saw: Option<Task>)
    | Computing(saw: Option<Task>)
    | Holding(cached: Option<Task>)
    | Posted(message: nat)
    | Over

  /** The replicas' caches and prewarms. `parked`, `taken` and `closed` record history: when each
      prewarm stored its card, how often it was consumed, how often each channel was closed. */
  datatype Memory = Memory(
    now: int,
    cache: Cache<Slot, Task, Task>,
    warmer: map<Task, WarmPhase>,
    parked: map<Task, int>,
    taken: multiset<Task>,
    closed: multiset<Task>)

  /** A committed ai_venue_card message: a prewarm's card, or one that the fire computed itself. */
  datatype Card = Card(matchID: Id, poster: Task, cached: Option<Task>)

  /** `runs` gives the message of each match's `fired` run row; `sent` the messages broadcast. */
  datatype Database = Database(cards: seq<Card>, runs: map<Id, nat>, sent: multiset<nat>)

  datatype World = World(mem: Memory, firer: map<Task, FirePhase>, db: Database)

  const EMPTY_MEMORY: Memory := Memory(0, Cache(map[], map[]), map[], map[], multiset{}, multiset{})

  const START: World := World(EMPTY_MEMORY, map[], Database([], map[], multiset{}))

  function Warmer(s: Memory, t: Task): WarmPhase { if t in s.warmer then s.warmer[t] else WarmFresh }

  function Firer(w: World, f: Task): FirePhase { if f in w.firer then w.firer[f] else FireFresh }

  datatype WarmAct = Claim | Check(fired: bool) | Called(ok: bool) | Park | Release | Close

  /** A commit can succeed without the caller learning it. */
  datatype Outcome = Committed | AckLost | Failed

  datatype FireAct =
    | Precheck(fired: bool)
    | Look
    | Wake
    | Timeout
    | Take
    | Computed(ok: bool)
    | Persist(outcome: Outcome)
    | Broadcast

  datatype Event = Tick(seconds: nat) | Prewarm(t: Task, warm: WarmAct) | Fire(f: Task, fire: FireAct)

  // A failed alreadyFired query reads as "not fired".

  predicate WarmEnabled(s: Memory, runs: map<Id, nat>, t: Task, a: WarmAct) {
    match a
    case Claim => Warmer(s, t).WarmFresh?
    case Check(fired) => Warmer(s, t).Claiming? && (fired ==> t.matchID in runs)
    case Called(_) => Warmer(s, t).Calling?
    case Park => Warmer(s, t).Storing?
    case Release => Warmer(s, t).Cleaning?
    case Close => Warmer(s, t).Closing?
  }

  predicate FireEnabled(w: World, f: Task, a: FireAct) {
    match a
    case Precheck(fired) => Firer(w, f).FireFresh? && (fired ==> f.matchID in w.db.runs)
    case Look => Firer(w, f).Looking?
    case Wake => Firer(w, f).Waiting? && Firer(w, f).on in w.mem.closed
    case Timeout => Firer(w, f).Waiting?
    case Take => Firer(w, f).Taking? || Firer(w, f).Expired?
    case Computed(_) => Firer(w, f).Computing?
    case Persist(_) => Firer(w, f).Holding?
    case Broadcast => Firer(w, f).Posted?
  }

  predicate Enabled(w: World, e: Event) {
    match e
    case Tick(_) => true
    case Prewarm(t, a) => WarmEnabled(w.mem, w.db.runs, t, a)
    case Fire(f, a) => FireEnabled(w, f, a)
  }

  function SetWarmer(s: Memory, t: Task, p: WarmPhase): Memory { s.(warmer := s.warmer[t := p]) }

  function WarmStep(s: Memory, t: Task, a: WarmAct): Memory {
    match a
    case Claim =>
      if MayClaim(s.cache, At(t), s.now)
      then SetWarmer(s, t, Claiming).(cache := Claimed(s.cache, At(t), t))
      else SetWarmer(s, t, Skipped)
    case Check(fired) => SetWarmer(s, t, if fired then Cleaning else Calling)
    case Called(ok) => SetWarmer(s, t, if ok then Storing else Cleaning)
    case Park =>
      SetWarmer(s, t, Cleaning).(cache := Parked(s.cache, At(t), Entry(t, s.now)), parked := s.parked[t := s.now])
    case Release => SetWarmer(s, t, Closing).(cache := Released(s.cache, At(t)))
    case Close => SetWarmer(s, t, Finished).(closed := s.closed + multiset{t})
  }

  function TakeCard(s: Memory, k: Slot): Memory
    requires HasFresh(s.cache, k, s.now)
  {
    s.(cache := Taken(s.cache, k, s.now), taken := s.taken + multiset{s.cache.warm[k].card})
  }

  /** persist's transaction: the message and the `fired` row, or neither. */
  function Post(db: Database, f: Task, cached: Option<Task>): Database {
    db.(cards := db.cards + [Card(f.matchID, f, cached)], runs := db.runs[f.matchID := |db.cards|])
  }

  function PhaseAfter(w: World, f: Task, a: FireAct): FirePhase
    requires FireEnabled(w, f, a)
  {
    match a
    case Precheck(fired) => if fired then Over else Looking
    case Look => if At(f) in w.mem.cache.warming then Waiting(w.mem.cache.warming[At(f)]) else Taking(None)
    case Wake => Taking(Some(Firer(w, f).on))
    case Timeout => Expired
    case Take =>
      if Firer(w, f).Expired? then Over    // a card it took is lost, and compute fails at its first query
      else if HasFresh(w.mem.cache, At(f), w.mem.now) then Holding(Some(w.mem.cache.warm[At(f)].card))
      else Computing(Firer(w, f).saw)
    case Computed(ok) => if ok then Holding(None) else Over
    case Persist(outcome) => if outcome.Committed? && f.matchID !in w.db.runs then Posted(|w.db.cards|) else Over
    case Broadcast => Over
  }

  function FireStep(w: World, f: Task, a: FireAct): World
    requires FireEnabled(w, f, a)
  {
    World(
      if a.Take? && HasFresh(w.mem.cache, At(f), w.mem.now) then TakeCard(w.mem, At(f)) else w.mem,
      w.firer[f := PhaseAfter(w, f, a)],
      if a.Persist? && !a.outcome.Failed? && f.matchID !in w.db.runs then Post(w.db, f, Firer(w, f).cached)
      else if a.Broadcast? then w.db.(sent := w.db.sent + multiset{Firer(w, f).message})
      else w.db)
  }

  function Step(w: World, e: Event): World
    requires Enabled(w, e)
  {
    match e
    case Tick(seconds) => w.(mem := w.mem.(now := w.mem.now + seconds))
    case Prewarm(t, a) => w.(mem := WarmStep(w.mem, t, a))
    case Fire(f, a) => FireStep(w, f, a)
  }

  ghost predicate Runs(w: World, es: seq<Event>, w': World)
    decreases |es|
  {
    if es == [] then w == w' else Enabled(w, es[0]) && Runs(Step(w, es[0]), es[1..], w')
  }

  // ---- The caches and the prewarms ---------------------------------------------------------

  predicate NotYetParked(s: Memory, t: Task) {
    Warmer(s, t).Claiming? || Warmer(s, t).Calling? || Warmer(s, t).Storing?
  }

  /** Between claim and cleanup. */
  predicate InFlight(s: Memory, t: Task) { NotYetParked(s, t) || Warmer(s, t).Cleaning? }

  /** t stored a card that is still usable and that nobody has consumed. */
  predicate Usable(s: Memory, t: Task) {
    t in s.parked && s.now - s.parked[t] < WARM_TTL && s.taken[t] == 0
  }

  predicate WarmerOk(s: Memory, t: Task) {
    && (InFlight(s, t) ==> At(t) in s.cache.warming && s.cache.warming[At(t)] == t)
    && s.closed[t] == (if Warmer(s, t).Finished? then 1 else 0)
    && s.taken[t] <= (if t in s.parked then 1 else 0)
    && (t in s.parked ==> Warmer(s, t).Cleaning? || Warmer(s, t).Closing? || Warmer(s, t).Finished?)
    && (Usable(s, t) ==>
          && At(t) in s.cache.warm && s.cache.warm[At(t)] == Entry(t, s.parked[t])
          && (At(t) in s.cache.warming ==> !NotYetParked(s, s.cache.warming[At(t)])))
  }

  predicate SlotOk(s: Memory, k: Slot) {
    && (k in s.cache.warm ==>
          var e := s.cache.warm[k];
          At(e.card) == k && e.card in s.parked && s.parked[e.card] == e.at && s.taken[e.card] == 0)
    && (k in s.cache.warming ==> At(s.cache.warming[k]) == k && InFlight(s, s.cache.warming[k]))
  }

  ghost predicate MemoryOk(s: Memory) { (forall t :: WarmerOk(s, t)) && (forall k :: SlotOk(s, k)) }

  lemma OwnWarmerKept(s: Memory, runs: map<Id, nat>, t: Task, a: WarmAct)
    requires WarmEnabled(s, runs, t, a) && WarmerOk(s, t) && SlotOk(s, At(t))
    ensures WarmerOk(WarmStep(s, t, a), t)
  {
  }

  /** What WarmerOk reads of one prewarm, apart from the clock and its slot. */
  predicate SameTask(s: Memory, s': Memory, t: Task) {
    && Warmer(s', t) == Warmer(s, t) && s'.closed[t] == s.closed[t] && s'.taken[t] == s.taken[t]
    && (t in s'.parked <==> t in s.parked) && (t in s.parked ==> s'.parked[t] == s.parked[t])
  }

  predicate SameSlot(s: Memory, s': Memory, k: Slot) {
    && (k in s'.cache.warm <==> k in s.cache.warm) && (k in s.cache.warm ==> s'.cache.warm[k] == s.cache.warm[k])
    && (k in s'.cache.warming <==> k in s.cache.warming)
    && (k in s.cache.warming ==> s'.cache.warming[k] == s.cache.warming[k] && SameTask(s, s', s.cache.warming[k]))
  }

  lemma WarmStepIsLocal(s: Memory, t: Task, a: WarmAct, u: Task)
    requires u != t
    ensures SameTask(s, WarmStep(s, t, a), u) && WarmStep(s, t, a).now == s.now
  {
  }

  /** A prewarm does not touch the slots of others. */
  lemma SlotUntouched(s: Memory, t: Task, a: WarmAct, k: Slot)
    requires k != At(t) && SlotOk(s, k)
    ensures SameSlot(s, WarmStep(s, t, a), k)
    ensures k in s.cache.warm ==> SameTask(s, WarmStep(s, t, a), s.cache.warm[k].card)
  {
    SlotsTasksDiffer(s, t, k);
    SameCacheElsewhere(s, t, a, k);
    hide WarmStep, SlotOk;
    if k in s.cache.warming {
      WarmStepIsLocal(s, t, a, s.cache.warming[k]);
    }
    if k in s.cache.warm {
      WarmStepIsLocal(s, t, a, s.cache.warm[k].card);
    }
  }

  lemma SlotsTasksDiffer(s: Memory, t: Task, k: Slot)
    requires k != At(t) && SlotOk(s, k)
    ensures (k in s.cache.warming ==> s.cache.warming[k] != t) && (k in s.cache.warm ==> s.cache.warm[k].card != t)
  {
  }

  lemma SameCacheElsewhere(s: Memory, t: Task, a: WarmAct, k: Slot)
    requires k != At(t)
    ensures (var c, c' := s.cache, WarmStep(s, t, a).cache;
             && (k in c'.warm <==> k in c.warm) && (k in c.warm ==> c'.warm[k] == c.warm[k])
             && (k in c'.warming <==> k in c.warming) && (k in c.warming ==> c'.warming[k] == c.warming[k]))
  {
    hide MayClaim;
  }

  lemma WarmerElsewhereKept(s: Memory, runs: map<Id, nat>, t: Task, a: WarmAct, u: Task)
    requires WarmEnabled(s, runs, t, a) && At(u) != At(t)
    requires WarmerOk(s, u) && SlotOk(s, At(u))
    ensures WarmerOk(WarmStep(s, t, a), u)
  {
    hide WarmStep, WarmEnabled, SlotOk, WarmerOk, SameTask, SameSlot;
    WarmStepIsLocal(s, t, a, u);
    SlotUntouched(s, t, a, At(u));
    UnchangedWarmerOk(s, WarmStep(s, t, a), u);
  }

  lemma UnchangedWarmerOk(s: Memory, s': Memory, u: Task)
    requires WarmerOk(s, u) && SameTask(s, s', u) && SameSlot(s, s', At(u)) && s'.now >= s.now
    ensures WarmerOk(s', u)
  {
  }

  lemma ClaimKeepsOther(s: Memory, t: Task, u: Task)
    requires Warmer(s, t).WarmFresh? && u != t && At(u) == At(t) && WarmerOk(s, u)
    ensures WarmerOk(WarmStep(s, t, Claim), u)
  {
  }

  lemma OtherWarmerKept(s: Memory, runs: map<Id, nat>, t: Task, a: WarmAct, u: Task)
    requires WarmEnabled(s, runs, t, a) && !a.Claim? && u != t && At(u) == At(t)
    requires WarmerOk(s, u) && WarmerOk(s, t)
    ensures WarmerOk(WarmStep(s, t, a), u)
  {
    WarmStepIsLocal(s, t, a, u);
    assert a.Close? || (InFlight(s, t) && !InFlight(s, u));
  }

  lemma UnchangedSlotOk(s: Memory, s': Memory, k: Slot)
    requires SlotOk(s, k) && SameSlot(s, s', k) && (k in s.cache.warm ==> SameTask(s, s', s.cache.warm[k].card))
    ensures SlotOk(s', k)
  {
  }

  lemma SlotElsewhereKept(s: Memory, t: Task, a: WarmAct, k: Slot)
    requires SlotOk(s, k) && k != At(t)
    ensures SlotOk(WarmStep(s, t, a), k)
  {
    hide WarmStep, SlotOk, SameTask, SameSlot;
    SlotUntouched(s, t, a, k);
    UnchangedSlotOk(s, WarmStep(s, t, a), k);
  }

  lemma OwnSlotKept(s: Memory, runs: map<Id, nat>, t: Task, a: WarmAct)
    requires WarmEnabled(s, runs, t, a) && WarmerOk(s, t) && SlotOk(s, At(t))
    ensures SlotOk(WarmStep(s, t, a), At(t))
  {
  }

  lemma WarmStepKeepsMemory(s: Memory, runs: map<Id, nat>, t: Task, a: WarmAct)
    requires MemoryOk(s) && WarmEnabled(s, runs, t, a)
    ensures MemoryOk(WarmStep(s, t, a))
  {
    hide WarmStep, WarmerOk, SlotOk;
    forall u
      ensures WarmerOk(WarmStep(s, t, a), u)
    {
      if u == t {
        OwnWarmerKept(s, runs, t, a);
      } else if At(u) != At(t) {
        WarmerElsewhereKept(s, runs, t, a, u);
      } else if a.Claim? {
        ClaimKeepsOther(s, t, u);
      } else {
        OtherWarmerKept(s, runs, t, a, u);
      }
    }
    forall k
      ensures SlotOk(WarmStep(s, t, a), k)
    {
      if k == At(t) {
        OwnSlotKept(s, runs, t, a);
      } else {
        SlotElsewhereKept(s, t, a, k);
      }
    }
  }

  lemma TakeCardKeeps(s: Memory, k: Slot)
    requires MemoryOk(s) && HasFresh(s.cache, k, s.now)
    ensures MemoryOk(TakeCard(s, k))
  {
    assert SlotOk(s, k);
    forall t
      ensures WarmerOk(TakeCard(s, k), t)
    {
      assert WarmerOk(s, t);
    }
    forall l
      ensures SlotOk(TakeCard(s, k), l)
    {
      assert SlotOk(s, l);
    }
  }

  lemma TickKeepsMemory(s: Memory, seconds: nat)
    requires MemoryOk(s)
    ensures MemoryOk(s.(now := s.now + seconds))
  {
    var s' := s.(now := s.now + seconds);
    forall t
      ensures WarmerOk(s', t)
    {
      assert WarmerOk(s, t);
    }
    forall k
      ensures SlotOk(s', k)
    {
      assert SlotOk(s, k);
    }
  }

  // ---- The database and the fires ----------------------------------------------------------

  predicate CardOk(db: Database, m: nat) {
    m < |db.cards| ==> db.cards[m].matchID in db.runs && db.runs[db.cards[m].matchID] == m
  }

  predicate RunOk(db: Database, matchID: Id) {
    matchID in db.runs ==> db.runs[matchID] < |db.cards| && db.cards[db.runs[matchID]].matchID == matchID
  }

  predicate SentOk(db: Database, m: nat) { db.sent[m] <= if m < |db.cards| then 1 else 0 }

  ghost predicate DatabaseOk(db: Database) {
    (forall m :: CardOk(db, m)) && (forall i :: RunOk(db, i)) && (forall m :: SentOk(db, m))
  }

  predicate FirerOk(w: World, f: Task) {
    match Firer(w, f)
    case Waiting(t) => At(t) == At(f)
    case Taking(Some(t)) => At(t) == At(f) && t in w.mem.closed
    case Computing(Some(t)) => At(t) == At(f) && t in w.mem.closed
    case Posted(m) => m < |w.db.cards| && w.db.cards[m].matchID == f.matchID && w.db.cards[m].poster == f && w.db.sent[m] == 0
    case _ => true
  }

  ghost predicate Inv(w: World) {
    MemoryOk(w.mem) && DatabaseOk(w.db) && (forall f :: FirerOk(w, f))
  }

  lemma PostKeeps(db: Database, f: Task, cached: Option<Task>)
    requires DatabaseOk(db) && f.matchID !in db.runs
    ensures DatabaseOk(Post(db, f, cached))
  {
    var db' := Post(db, f, cached);
    forall m: nat
      ensures CardOk(db', m) && SentOk(db', m)
    {
      assert CardOk(db, m) && SentOk(db, m);
    }
    forall i
      ensures RunOk(db', i)
    {
      assert RunOk(db, i);
    }
  }

  lemma BroadcastKeeps(db: Database, m: nat)
    requires DatabaseOk(db) && m < |db.cards| && db.sent[m] == 0
    ensures DatabaseOk(db.(sent := db.sent + multiset{m}))
  {
    var db' := db.(sent := db.sent + multiset{m});
    forall n: nat
      ensures CardOk(db', n) && SentOk(db', n)
    {
      assert CardOk(db, n) && SentOk(db, n);
    }
    forall i
      ensures RunOk(db', i)
    {
      assert RunOk(db, i);
    }
  }

  /** A fire's own invariant survives what others do. */
  lemma OtherFirerKept(w: World, w': World, f: Task)
    requires FirerOk(w, f) && Firer(w', f) == Firer(w, f)
    requires w.mem.closed <= w'.mem.closed && w.db.cards <= w'.db.cards
    requires forall m: nat :: m < |w.db.cards| && w.db.cards[m].poster == f ==> w'.db.sent[m] == w.db.sent[m]
    ensures FirerOk(w', f)
  {
  }

  lemma OwnFirerKept(w: World, f: Task, a: FireAct)
    requires FireEnabled(w, f, a)
    requires FirerOk(w, f) && SlotOk(w.mem, At(f)) && SentOk(w.db, |w.db.cards|)
    ensures FirerOk(FireStep(w, f, a), f)
  {
  }

  lemma FireStepKeepsFirers(w: World, f: Task, a: FireAct)
    requires Inv(w) && FireEnabled(w, f, a)
    ensures forall g :: FirerOk(FireStep(w, f, a), g)
  {
    var w' := FireStep(w, f, a);
    assert FirerOk(w, f) && SlotOk(w.mem, At(f)) && SentOk(w.db, |w.db.cards|);
    forall g
      ensures FirerOk(w', g)
    {
      if g == f {
        OwnFirerKept(w, f, a);
      } else {
        OtherFirerKept(w, w', g);
      }
    }
  }

  lemma StepKeepsInv(w: World, e: Event)
    requires Inv(w) && Enabled(w, e)
    ensures Inv(Step(w, e))
  {
    match e
    case Tick(seconds) =>
      TickKeepsMemory(w.mem, seconds);
      forall f
        ensures FirerOk(Step(w, e), f)
      {
        OtherFirerKept(w, Step(w, e), f);
      }
    case Prewarm(t, a) =>
      WarmStepKeepsMemory(w.mem, w.db.runs, t, a);
      forall f
        ensures FirerOk(Step(w, e), f)
      {
        OtherFirerKept(w, Step(w, e), f);
      }
    case Fire(f, a) =>
      FireStepKeepsFirers(w, f, a);
      assert FirerOk(w, f);
      if a.Take? && HasFresh(w.mem.cache, At(f), w.mem.now) {
        TakeCardKeeps(w.mem, At(f));
      } else if a.Persist? && !a.outcome.Failed? && f.matchID !in w.db.runs {
        PostKeeps(w.db, f, Firer(w, f).cached);
      } else if a.Broadcast? {
        BroadcastKeeps(w.db, Firer(w, f).message);
      }
  }

  lemma {:induction false} RunKeepsInv(w: World, es: seq<Event>, w': World)
    requires Inv(w) && Runs(w, es, w')
    ensures Inv(w')
    decreases |es|
  {
    if es != [] {
      StepKeepsInv(w, es[0]);
      RunKeepsInv(Step(w, es[0]), es[1..], w');
    }
  }

  lemma Reachable(es: seq<Event>, w: World)
    requires Runs(START, es, w)
    ensures Inv(w)
  {
    RunKeepsInv(START, es, w);
  }

  // ---- Main results ------------------------------------------------------------------------

  /** At most one prewarm per replica and match is between claim and cleanup. */
  lemma SingleFlight(es: seq<Event>, w: World, t: Task, t': Task)
    requires Runs(START, es, w) && InFlight(w.mem, t) && InFlight(w.mem, t') && At(t) == At(t')
    ensures t == t'
  {
    Reachable(es, w);
    assert WarmerOk(w.mem, t) && WarmerOk(w.mem, t');
  }

  /** Every channel is closed at most once, and exactly once when its prewarm is through; a stored
      card is consumed at most once. */
  lemma ClosedAndConsumedOnce(es: seq<Event>, w: World, t: Task)
    requires Runs(START, es, w)
    ensures w.mem.closed[t] == if Warmer(w.mem, t).Finished? then 1 else 0
    ensures w.mem.taken[t] <= if t in w.mem.parked then 1 else 0
  {
    Reachable(es, w);
    assert WarmerOk(w.mem, t);
  }

  /** A fire released by a closing channel never calls the provider while the prewarm it saw does;
      and when it takes, it gets that prewarm's card if the card is still fresh and untaken. */
  lemma ReleasedFire(es: seq<Event>, w: World, f: Task, t: Task)
    requires Runs(START, es, w)
    ensures Firer(w, f) == Computing(Some(t)) ==> Warmer(w.mem, t).Finished?
    ensures Firer(w, f) == Taking(Some(t)) && Usable(w.mem, t) ==>
      Firer(Step(w, Fire(f, Take)), f) == Holding(Some(t))
  {
    Reachable(es, w);
    assert FirerOk(w, f) && WarmerOk(w.mem, t);
  }

  /** Across all replicas a match gets at most one card, a card exists exactly together with the
      match's `fired` run row, and each card is broadcast at most once and only after its commit. */
  lemma OneCardPerMatch(es: seq<Event>, w: World, matchID: Id)
    requires Runs(START, es, w)
    ensures forall i, j :: 0 <= i < j < |w.db.cards| ==> w.db.cards[i].matchID != w.db.cards[j].matchID
    ensures matchID in w.db.runs <==> exists i :: 0 <= i < |w.db.cards| && w.db.cards[i].matchID == matchID
    ensures matchID in w.db.runs ==>
      w.db.runs[matchID] < |w.db.cards| && w.db.cards[w.db.runs[matchID]].matchID == matchID
    ensures forall m :: m in w.db.sent ==> m < |w.db.cards| && w.db.sent[m] == 1
  {
    Reachable(es, w);
    forall i, j | 0 <= i < j < |w.db.cards|
      ensures w.db.cards[i].matchID != w.db.cards[j].matchID
    {
      assert CardOk(w.db, i) && CardOk(w.db, j);
    }
    forall i | 0 <= i < |w.db.cards| && w.db.cards[i].matchID == matchID
      ensures matchID in w.db.runs
    {
      assert CardOk(w.db, i);
    }
    assert RunOk(w.db, matchID);
    forall m | m in w.db.sent
      ensures m < |w.db.cards| && w.db.sent[m] == 1
    {
      assert SentOk(w.db, m);
    }
  }

  lemma PrependEvent(w: World, e: Event, es: seq<Event>, w': World) returns (more: seq<Event>)
    requires Enabled(w, e) && Runs(Step(w, e), es, w')
    ensures Runs(w, more, w')
  {
    more := [e] + es;
    assert more[1..] == es;
  }

  // ---- Which prewarms can call the provider beside a fire ----------------------------------

  /** The prewarm was claimed, and if it may still call the provider then the fire waits for it, or
      has given up. */
  predicate Shielded(w: World, f: Task, t: Task) {
    && !Warmer(w.mem, t).WarmFresh?
    && (Warmer(w.mem, t).Claiming? || Warmer(w.mem, t).Calling? ==>
          Firer(w, f) == Waiting(t) || Firer(w, f).Expired? || Firer(w, f).Over?)
  }

  lemma LookShields(w: World, f: Task, t: Task)
    requires Inv(w) && Firer(w, f).Looking? && At(f) == At(t) && !Warmer(w.mem, t).WarmFresh?
    ensures Shielded(Step(w, Fire(f, Look)), f, t)
  {
    assert WarmerOk(w.mem, t);
  }

  lemma FireKeepsShield(w: World, g: Task, a: FireAct, f: Task, t: Task)
    requires Inv(w) && FireEnabled(w, g, a) && Shielded(w, f, t)
    ensures Shielded(FireStep(w, g, a), f, t)
  {
    assert WarmerOk(w.mem, t);
    hide MemoryOk, DatabaseOk, HasFresh;
  }

  lemma StepKeepsShield(w: World, e: Event, f: Task, t: Task)
    requires Inv(w) && Enabled(w, e) && Shielded(w, f, t)
    ensures Shielded(Step(w, e), f, t)
  {
    hide Inv;
    match e
    case Tick(_) =>
    case Prewarm(u, a) => if u != t { WarmStepIsLocal(w.mem, u, a, t); }
    case Fire(g, a) => FireKeepsShield(w, g, a, f, t);
  }

  lemma {:induction false} RunKeepsShield(w: World, es: seq<Event>, w': World, f: Task, t: Task)
    requires Inv(w) && Runs(w, es, w') && Shielded(w, f, t)
    ensures Shielded(w', f, t)
    decreases |es|
  {
    if es != [] {
      StepKeepsInv(w, es[0]);
      StepKeepsShield(w, es[0], f, t);
      RunKeepsShield(Step(w, es[0]), es[1..], w', f, t);
    }
  }

  /** Only a prewarm that was unclaimed when the fire looked can call the provider beside it. */
  lemma OnlyLatePrewarmsOverlap(es: seq<Event>, w: World, f: Task, t: Task, more: seq<Event>, w': World)
    requires Runs(START, es, w) && Firer(w, f).Looking? && At(f) == At(t)
    requires Runs(Step(w, Fire(f, Look)), more, w')
    requires Firer(w', f).Computing? && Warmer(w'.mem, t).Calling?
    ensures Warmer(w.mem, t).WarmFresh?
  {
    Reachable(es, w);
    if !Warmer(w.mem, t).WarmFresh? {
      LookShields(w, f, t);
      StepKeepsInv(w, Fire(f, Look));
      RunKeepsShield(Step(w, Fire(f, Look)), more, w', f, t);
    }
  }

  /** While any fire calls the provider, a prewarm not yet claimed may claim and call it too, if
      nothing fresh is cached and no other prewarm is in flight. */
  lemma LatePrewarmOverlaps(w: World, f: Task, t: Task) returns (es: seq<Event>, w': World)
    requires Firer(w, f).Computing? && At(f) == At(t)
    requires Warmer(w.mem, t).WarmFresh? && MayClaim(w.mem.cache, At(t), w.mem.now)
    ensures Runs(w, es, w')
    ensures Firer(w', f) == Firer(w, f) && Warmer(w'.mem, t).Calling? && w'.mem.now == w.mem.now
  {
    var claimed := Step(w, Prewarm(t, Claim));
    w' := Step(claimed, Prewarm(t, Check(false)));
    es := PrependEvent(claimed, Prewarm(t, Check(false)), [], w');
    es := PrependEvent(w, Prewarm(t, Claim), es, w');
  }

  function StepsLeft(p: WarmPhase): nat {
    match p
    case Claiming => 5
    case Calling => 4
    case Storing => 3
    case Cleaning => 2
    case Closing => 1
    case _ => 0
  }

  /** The next act of a prewarm whose provider call, if it comes to one, fails. */
  function NextAct(p: WarmPhase): WarmAct
    requires StepsLeft(p) > 0
  {
    match p
    case Claiming => Check(false)
    case Calling => Called(false)
    case Storing => Park
    case Cleaning => Release
    case Closing => Close
  }

  /** A prewarm in flight can come to its end undisturbed and in no time. */
  lemma {:induction false} FinishPrewarm(w: World, u: Task) returns (es: seq<Event>, w': World)
    requires InFlight(w.mem, u) || Warmer(w.mem, u).Closing?
    ensures Runs(w, es, w') && u in w'.mem.closed
    ensures w'.firer == w.firer && w'.db == w.db && w'.mem.now == w.mem.now
    ensures forall v :: v != u ==> Warmer(w'.mem, v) == Warmer(w.mem, v)
    ensures InFlight(w.mem, u) ==> At(u) !in w'.mem.cache.warming
    ensures Warmer(w.mem, u).Closing? ==> w'.mem.cache == w.mem.cache
    decreases StepsLeft(Warmer(w.mem, u))
  {
    var e := Prewarm(u, NextAct(Warmer(w.mem, u)));
    var next := Step(w, e);
    if Warmer(w.mem, u).Closing? {
      es, w' := [], next;
    } else {
      es, w' := FinishPrewarm(next, u);
    }
    es := PrependEvent(w, e, es, w');
  }

  /** From having looked, a fire can come to its provider call with no prewarm in flight and nothing
      fresh cached, while the prewarms it did not wait for stay as they are. */
  lemma FireReachesProvider(w: World, f: Task, t: Task) returns (es: seq<Event>, w': World)
    requires Inv(w) && Firer(w, f).Looking? && At(f) == At(t) && Warmer(w.mem, t).WarmFresh?
    ensures Runs(Step(w, Fire(f, Look)), es, w') && Firer(w', f).Computing? && w'.mem.now == w.mem.now
    ensures Warmer(w'.mem, t).WarmFresh? && MayClaim(w'.mem.cache, At(t), w'.mem.now)
  {
    var looked := Step(w, Fire(f, Look));
    assert SlotOk(w.mem, At(f));
    if At(f) in w.mem.cache.warming {
      var u := w.mem.cache.warming[At(f)];
      var before, finished := FinishPrewarm(looked, u);
      var woken := Step(finished, Fire(f, Wake));
      es, w' := TakeNothing(woken, f);
      es := PrependEvent(finished, Fire(f, Wake), es, w');
      es := JoinRuns(looked, before, finished, es, w');
    } else {
      es, w' := TakeNothing(looked, f);
    }
  }

  lemma {:induction false} JoinRuns(w: World, es: seq<Event>, v: World, more: seq<Event>, w': World)
    returns (all: seq<Event>)
    requires Runs(w, es, v) && Runs(v, more, w')
    ensures Runs(w, all, w')
    decreases |es|
  {
    if es == [] {
      all := more;
    } else {
      all := JoinRuns(Step(w, es[0]), es[1..], v, more, w');
      all := PrependEvent(w, es[0], all, w');
    }
  }

  lemma {:induction false} NewTask(known: set<Task>, k: Slot) returns (g: Task)
    ensures At(g) == k && forall t :: t in known ==> t.id < g.id
  {
    if known == {} {
      g := Task(0, k.replica, k.matchID);
    } else {
      var t :| t in known;
      g := NewTask(known - {t}, k);
      g := g.(id := if g.id > t.id then g.id else t.id + 1);
      assert forall u :: u in known ==> u == t || u in known - {t};
    }
  }

  /** Another fire takes the card that is cached. */
  lemma CardTakenAway(w: World, k: Slot, f: Task) returns (es: seq<Event>, w': World)
    requires k !in w.mem.cache.warming && f in w.firer
    ensures Runs(w, es, w') && Firer(w', f) == Firer(w, f) && w'.mem.now == w.mem.now
    ensures w'.mem.warmer == w.mem.warmer && MayClaim(w'.mem.cache, k, w'.mem.now)
  {
    var g := NewTask(w.firer.Keys, k);
    assert g !in w.firer;
    var w1 := Step(w, Fire(g, Precheck(false)));
    var w2 := Step(w1, Fire(g, Look));
    w' := Step(w2, Fire(g, Take));
    es := PrependEvent(w2, Fire(g, Take), [], w');
    es := PrependEvent(w1, Fire(g, Look), es, w');
    es := PrependEvent(w, Fire(g, Precheck(false)), es, w');
  }

  /** Once what is cached has been taken by another fire, this one calls the provider. */
  lemma TakeNothing(w: World, f: Task) returns (es: seq<Event>, w': World)
    requires Firer(w, f).Taking? && At(f) !in w.mem.cache.warming
    ensures Runs(w, es, w') && Firer(w', f).Computing? && w'.mem.now == w.mem.now
    ensures w'.mem.warmer == w.mem.warmer && MayClaim(w'.mem.cache, At(f), w'.mem.now)
  {
    var before, v := CardTakenAway(w, At(f), f);
    w' := Step(v, Fire(f, Take));
    es := PrependEvent(v, Fire(f, Take), [], w');
    es := JoinRuns(w, before, v, es, w');
  }

  ghost predicate CanOverlap(looked: World, f: Task, t: Task, seconds: nat) {
    exists more, w' ::
      && Runs(looked, more, w') && w'.mem.now <= looked.mem.now + seconds
      && Firer(w', f).Computing? && Warmer(w'.mem, t).Calling?
  }

  /** The exact condition, to be read off when the fire looks: a prewarm can come to call the provider
      at the same time as the fire, however short the time, if and only if it is not yet claimed. */
  lemma OverlapIffUnclaimed(es: seq<Event>, w: World, f: Task, t: Task, seconds: nat)
    requires Runs(START, es, w) && Firer(w, f).Looking? && At(f) == At(t)
    ensures CanOverlap(Step(w, Fire(f, Look)), f, t, seconds) <==> Warmer(w.mem, t).WarmFresh?
  {
    var looked := Step(w, Fire(f, Look));
    Reachable(es, w);
    if CanOverlap(looked, f, t, seconds) {
      var more, w' :| Runs(looked, more, w') && Firer(w', f).Computing? && Warmer(w'.mem, t).Calling?;
      OnlyLatePrewarmsOverlap(es, w, f, t, more, w');
    }
    if Warmer(w.mem, t).WarmFresh? {
      var before, v := FireReachesProvider(w, f, t);
      var after, w' := LatePrewarmOverlaps(v, f, t);
      var more := JoinRuns(looked, before, v, after, w');
    }
  }

  /** A fire that found no prewarm in flight is reachable. */
  lemma LateFire(f: Task) returns (es: seq<Event>, w: World)
    ensures Runs(START, es, w) && Firer(w, f) == Computing(None) && w.mem == EMPTY_MEMORY
  {
    var w1 := Step(START, Fire(f, Precheck(false)));
    var w2 := Step(w1, Fire(f, Look));
    w := Step(w2, Fire(f, Take));
    es := PrependEvent(w2, Fire(f, Take), [], w);
    es := PrependEvent(w1, Fire(f, Look), es, w);
    es := PrependEvent(START, Fire(f, Precheck(false)), es, w);
  }

  // ---- Fresh and stale cards ---------------------------------------------------------------

  /** A prewarm's card that a fire comes to hold was stored less than ten minutes before. */
  lemma TakenIsFresh(es: seq<Event>, w: World, f: Task, t: Task)
    requires Runs(START, es, w) && FireEnabled(w, f, Take)
    requires Firer(Step(w, Fire(f, Take)), f) == Holding(Some(t))
    ensures t in w.mem.parked && 0 <= w.mem.now - w.mem.parked[t] < 600 && At(t) == At(f)
  {
    Reachable(es, w);
    ParkedInThePast(es, w, t);
    assert SlotOk(w.mem, At(f));
  }

  predicate ParkedBefore(s: Memory, t: Task) { t in s.parked ==> s.parked[t] <= s.now }

  lemma {:induction false} ParkedStaysBefore(w: World, es: seq<Event>, w': World, t: Task)
    requires ParkedBefore(w.mem, t) && Runs(w, es, w')
    ensures ParkedBefore(w'.mem, t)
    decreases |es|
  {
    if es != [] {
      ParkedStaysBefore(Step(w, es[0]), es[1..], w', t);
    }
  }

  lemma ParkedInThePast(es: seq<Event>, w: World, t: Task)
    requires Runs(START, es, w)
    ensures ParkedBefore(w.mem, t)
  {
    ParkedStaysBefore(START, es, w, t);
  }

  /** A prewarm goes ahead exactly if no other is in flight and what is cached, if anything, was
      stored ten minutes ago or earlier. */
  lemma ClaimsIff(es: seq<Event>, w: World, t: Task)
    requires Runs(START, es, w) && Warmer(w.mem, t).WarmFresh?
    ensures Warmer(Step(w, Prewarm(t, Claim)).mem, t).Claiming? <==>
      && (forall u :: At(u) == At(t) ==> !InFlight(w.mem, u))
      && (forall u :: At(u) == At(t) && u in w.mem.parked && w.mem.taken[u] == 0 ==> w.mem.now - w.mem.parked[u] >= 600)
  {
    Reachable(es, w);
    var k := At(t);
    assert SlotOk(w.mem, k);
    forall u | At(u) == k
      ensures InFlight(w.mem, u) ==> k in w.mem.cache.warming
      ensures Usable(w.mem, u) ==> k in w.mem.cache.warm && w.mem.cache.warm[k] == Entry(u, w.mem.parked[u])
    {
      assert WarmerOk(w.mem, u);
    }
    if k in w.mem.cache.warm && w.mem.now - w.mem.cache.warm[k].at < 600 {
      assert Usable(w.mem, w.mem.cache.warm[k].card);
    }
  }

  /** A goroutine that sees that the match has fired is through with it; only a fire that waits runs out
      of time. */
  lemma SeesFired(w: World, t: Task)
    ensures FireEnabled(w, t, Timeout) <==> Firer(w, t).Waiting?
    ensures WarmEnabled(w.mem, w.db.runs, t, Check(true)) ==> Warmer(Step(w, Prewarm(t, Check(true))).mem, t).Cleaning?
    ensures FireEnabled(w, t, Precheck(true)) ==> Firer(Step(w, Fire(t, Precheck(true))), t).Over?
    ensures WarmEnabled(w.mem, w.db.runs, t, Check(true)) || FireEnabled(w, t, Precheck(true)) ==> t.matchID in w.db.runs
  {
  }

  /** A fire that calls the provider for a match that has not fired can post and broadcast what it
      computes. */
  lemma ComputedCardIsSent(es: seq<Event>, w: World, f: Task) returns (more: seq<Event>, w': World)
    requires Runs(START, es, w) && Firer(w, f).Computing? && f.matchID !in w.db.runs
    ensures Runs(w, more, w') && w'.mem == w.mem && Firer(w', f).Over?
    ensures w'.db.cards == w.db.cards + [Card(f.matchID, f, None)]
    ensures w'.db.runs == w.db.runs[f.matchID := |w.db.cards|] && w'.db.sent == w.db.sent + multiset{|w.db.cards|}
  {
    hide Runs;
    var w1 := Step(w, Fire(f, Computed(true)));
    var w2 := Step(w1, Fire(f, Persist(Committed)));
    w' := Step(w2, Fire(f, Broadcast));
    NoEvents(w');
    more := PrependEvent(w2, Fire(f, Broadcast), [], w');
    more := PrependEvent(w1, Fire(f, Persist(Committed)), more, w');
    more := PrependEvent(w, Fire(f, Computed(true)), more, w');
  }

  lemma NoEvents(w: World)
    ensures Runs(w, [], w)
  {
  }

  // ---- Which taken cards are posted --------------------------------------------------------

  predicate Shows(db: Database, t: Task) { exists i :: 0 <= i < |db.cards| && db.cards[i].cached == Some(t) }

  predicate HeldWasTaken(w: World, f: Task) {
    Firer(w, f).Holding? && Firer(w, f).cached.Some? ==> Firer(w, f).cached.value in w.mem.taken
  }

  predicate ShownWasTaken(w: World, i: nat) {
    i < |w.db.cards| && w.db.cards[i].cached.Some? ==> w.db.cards[i].cached.value in w.mem.taken
  }

  ghost predicate TakenFirst(w: World) { (forall f :: HeldWasTaken(w, f)) && (forall i :: ShownWasTaken(w, i)) }

  lemma TakenGrows(w: World, e: Event)
    requires Enabled(w, e)
    ensures w.mem.taken <= Step(w, e).mem.taken
  {
  }

  lemma StepKeepsTakenFirst(w: World, e: Event)
    requires TakenFirst(w) && Enabled(w, e)
    ensures TakenFirst(Step(w, e))
  {
    var w' := Step(w, e);
    TakenGrows(w, e);
    forall f
      ensures HeldWasTaken(w', f)
    {
      assert HeldWasTaken(w, f);
    }
    forall i: nat
      ensures ShownWasTaken(w', i)
    {
      assert ShownWasTaken(w, i);
      if e.Fire? { assert HeldWasTaken(w, e.f); }
    }
  }

  lemma {:induction false} RunKeepsTakenFirst(w: World, es: seq<Event>, w': World)
    requires TakenFirst(w) && Runs(w, es, w')
    ensures TakenFirst(w')
    decreases |es|
  {
    hide TakenFirst;
    if es != [] {
      StepKeepsTakenFirst(w, es[0]);
      RunKeepsTakenFirst(Step(w, es[0]), es[1..], w');
    }
  }

  /** The card has been taken and is not shown, and who holds it comes too late. */
  predicate LostTo(w: World, t: Task, g: Task) { Firer(w, g) == Holding(Some(t)) ==> g.matchID in w.db.runs }

  ghost predicate Lost(w: World, t: Task) {
    t in w.mem.taken && !Shows(w.db, t) && forall g :: LostTo(w, t, g)
  }

  lemma StepKeepsLost(w: World, e: Event, t: Task)
    requires Inv(w) && Enabled(w, e) && Lost(w, t)
    ensures Lost(Step(w, e), t)
  {
    var w' := Step(w, e);
    TakenGrows(w, e);
    forall g
      ensures LostTo(w', t, g)
    {
      assert LostTo(w, t, g);
      assert SlotOk(w.mem, At(g));
    }
    if e.Fire? { assert LostTo(w, t, e.f); }
  }

  lemma {:induction false} RunKeepsLost(w: World, es: seq<Event>, w': World, t: Task)
    requires Inv(w) && Runs(w, es, w') && Lost(w, t)
    ensures Lost(w', t)
    decreases |es|
  {
    hide Lost;
    if es != [] {
      StepKeepsInv(w, es[0]);
      StepKeepsLost(w, es[0], t);
      RunKeepsLost(Step(w, es[0]), es[1..], w', t);
    }
  }

  ghost predicate CanBeShown(w: World, t: Task) { exists es, w' :: Runs(w, es, w') && Shows(w'.db, t) }

  lemma TakenTooLateIsLost(w: World, f: Task)
    requires Inv(w) && TakenFirst(w) && FireEnabled(w, f, Take) && HasFresh(w.mem.cache, At(f), w.mem.now)
    requires Firer(w, f).Expired? || f.matchID in w.db.runs
    ensures Lost(Step(w, Fire(f, Take)), w.mem.cache.warm[At(f)].card)
  {
    var w', t := Step(w, Fire(f, Take)), w.mem.cache.warm[At(f)].card;
    assert SlotOk(w.mem, At(f));
    assert t !in w.mem.taken;
    forall i | 0 <= i < |w'.db.cards|
      ensures w'.db.cards[i].cached != Some(t)
    {
      assert ShownWasTaken(w, i);
    }
    forall g
      ensures LostTo(w', t, g)
    {
      assert HeldWasTaken(w, g);
    }
  }

  lemma TakenInTimeIsShown(w: World, f: Task, t: Task) returns (es: seq<Event>, w': World)
    requires Firer(w, f) == Holding(Some(t)) && f.matchID !in w.db.runs
    ensures Runs(w, es, w') && Shows(w'.db, t)
  {
    w' := Step(w, Fire(f, Persist(Committed)));
    assert w'.db.cards[|w.db.cards|].cached == Some(t);
    es := PrependEvent(w, Fire(f, Persist(Committed)), [], w');
  }

  /** The exact condition, to be read off before a fire takes a card: the card can still come to be
      shown to somebody if and only if the fire is in time and the match has not fired. Taking it does
      not look at either, and nobody else can take it again. */
  lemma TakenCardCanBeShownIff(es: seq<Event>, w: World, f: Task)
    requires Runs(START, es, w) && FireEnabled(w, f, Take) && HasFresh(w.mem.cache, At(f), w.mem.now)
    ensures CanBeShown(Step(w, Fire(f, Take)), w.mem.cache.warm[At(f)].card) <==>
      !Firer(w, f).Expired? && f.matchID !in w.db.runs
  {
    var took, t := Step(w, Fire(f, Take)), w.mem.cache.warm[At(f)].card;
    Reachable(es, w);
    if Firer(w, f).Expired? || f.matchID in w.db.runs {
      RunKeepsTakenFirst(START, es, w);
      TakenTooLateIsLost(w, f);
      StepKeepsInv(w, Fire(f, Take));
      forall more, w' | Runs(took, more, w')
        ensures !Shows(w'.db, t)
      {
        RunKeepsLost(took, more, w', t);
      }
    } else {
      var more, w' := TakenInTimeIsShown(took, f, t);
    }
  }

  /** What a fire and a prewarm have when they start: 75 seconds. */
  const DEADLINE: nat := 75

  lemma FireStarts(f: Task, t: Task) returns (es: seq<Event>, w: World)
    requires At(f) == At(t)
    ensures Runs(START, es, w) && w.mem.now == 0 && w.db == START.db
    ensures Firer(w, f).Looking? && Warmer(w.mem, t).Claiming?
    ensures At(t) in w.mem.cache.warming && w.mem.cache.warming[At(t)] == t
  {
    var w1 := Step(START, Fire(f, Precheck(false)));
    w := Step(w1, Prewarm(t, Claim));
    es := PrependEvent(w1, Prewarm(t, Claim), [], w);
    es := PrependEvent(START, Fire(f, Precheck(false)), es, w);
  }

  lemma FireWaits(f: Task, t: Task) returns (es: seq<Event>, w: World)
    requires At(f) == At(t)
    ensures Runs(START, es, w) && w.mem.now == 0 && w.db == START.db
    ensures Firer(w, f) == Waiting(t) && Warmer(w.mem, t).Calling?
  {
    var before, w2 := FireStarts(f, t);
    var w3 := Step(w2, Fire(f, Look));
    w := Step(w3, Prewarm(t, Check(false)));
    es := PrependEvent(w3, Prewarm(t, Check(false)), [], w);
    es := PrependEvent(w2, Fire(f, Look), es, w);
    es := JoinRuns(START, before, w2, es, w);
  }

  lemma FireExpires(w: World, f: Task, t: Task) returns (es: seq<Event>, w': World)
    requires Firer(w, f) == Waiting(t) && Warmer(w.mem, t).Calling? && At(f) == At(t)
    ensures Runs(w, es, w') && w'.mem.now == w.mem.now + DEADLINE && w'.db == w.db
    ensures Firer(w', f).Expired? && HasFresh(w'.mem.cache, At(f), w'.mem.now) && w'.mem.cache.warm[At(f)].card == t
  {
    var w1 := Step(w, Tick(DEADLINE));
    var w2 := Step(w1, Prewarm(t, Called(true)));
    var w3 := Step(w2, Prewarm(t, Park));
    w' := Step(w3, Fire(f, Timeout));
    es := PrependEvent(w3, Fire(f, Timeout), [], w');
    es := PrependEvent(w2, Prewarm(t, Park), es, w');
    es := PrependEvent(w1, Prewarm(t, Called(true)), es, w');
    es := PrependEvent(w, Tick(DEADLINE), es, w');
  }

  /** A run in which that happens: the prewarm ends as the fire's time does, the fire takes its card,
      and the match gets none. */
  lemma ExpiredFireLosesCard(f: Task, t: Task) returns (es: seq<Event>, w: World)
    requires At(f) == At(t)
    ensures Runs(START, es, w) && w.mem.now == DEADLINE
    ensures Firer(w, f).Over? && t in w.mem.taken && w.db.cards == [] && !CanBeShown(w, t)
  {
    hide Runs, CanBeShown;
    var before, v := FireWaits(f, t);
    var waiting, u := FireExpires(v, f, t);
    es := JoinRuns(START, before, v, waiting, u);
    TakenCardCanBeShownIff(es, u, f);
    w := Step(u, Fire(f, Take));
    var last := TakeLast(u, f);
    es := JoinRuns(START, es, u, last, w);
  }

  lemma TakeLast(w: World, f: Task) returns (es: seq<Event>)
    requires FireEnabled(w, f, Take)
    ensures Runs(w, es, Step(w, Fire(f, Take)))
  {
    es := PrependEvent(w, Fire(f, Take), [], Step(w, Fire(f, Take)));
  }
}
