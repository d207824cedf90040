/** Swipe and createMatch of anmates-api/services/matching.go, interleaved statement by statement
    with any number of other calls. */
module Matching {
  import opened Wrappers
  import opened MatchStore

  /** A call in flight: a swipe, or (bots) a direct request for a match. */
  datatype Call = Call(id: nat, user: Id, target: Id, liked: bool, direct: bool)

  datatype Phase =
    | Fresh
    | Checking
    | Finding
    | Scoring
    | Inserting
    | Rereading
    | Returned(matched: Option<Id>)
    | Failed

  datatype World = World(store: Store, phase: map<Call, Phase>)

  function PhaseOf(w: World, c: Call): Phase { if c in w.phase then w.phase[c] else Fresh }

  datatype Event =
    | Begin(c: Call, now: int)       // record the swipe; a direct call starts at createMatch
    | Check(c: Call)
    | Find(c: Call, found: Option<Id>)
    | Score(c: Call)
    | Insert(c: Call)
    | Reread(c: Call, found: Option<Id>)
    | Fail(c: Call, written: bool, now: int)  // a statement errors, possibly after taking effect
    | Undo(user: Id)
    | Unmatch(m: Id)
    | Block(u: Id, v: Id)

  /** A SELECT of the pair's match returns one of its rows, if there is any. */
  predicate Selects(s: Store, u: Id, v: Id, found: Option<Id>) {
    if found.Some? then found.value in s.matches && IsPair(s.matches[found.value], u, v) else !HasMatch(s, u, v)
  }

  /** The tables refuse a user's swipe on, match with or block of himself; such a call can only fail. */
  predicate Proper(c: Call) { c.user != c.target }

  ghost predicate Enabled(w: World, e: Event) {
    match e
    case Begin(c, _) => PhaseOf(w, c).Fresh? && (c.direct || Proper(c))
    case Check(c) => PhaseOf(w, c).Checking?
    case Find(c, found) => PhaseOf(w, c).Finding? && Selects(w.store, c.user, c.target, found)
    case Score(c) => PhaseOf(w, c).Scoring?
    case Insert(c) => PhaseOf(w, c).Inserting? && Proper(c)
    case Reread(c, found) => PhaseOf(w, c).Rereading? && Selects(w.store, c.user, c.target, found)
    case Fail(c, written, _) => !PhaseOf(w, c).Returned? && !PhaseOf(w, c).Failed? && (written ==> Proper(c))
    case Block(u, v) => u != v
    case _ => true
  }

  /** The tables after an event; the unique index turns a second insert into a violation. */
  ghost function StoreAfter(w: World, e: Event): Store {
    match e
    case Begin(c, now) => if c.direct then w.store else PutSwipe(w.store, c.user, c.target, c.liked, now)
    case Insert(c) => if HasMatch(w.store, c.user, c.target) then w.store else PutMatch(w.store, c.user, c.target)
    case Fail(c, written, now) =>
      if written && PhaseOf(w, c).Fresh? && !c.direct then PutSwipe(w.store, c.user, c.target, c.liked, now)
      else if written && PhaseOf(w, c).Inserting? && !HasMatch(w.store, c.user, c.target)
      then PutMatch(w.store, c.user, c.target)
      else w.store
    case Undo(u) => UndoSwipe(w.store, u)
    case Unmatch(m) => DropMatch(w.store, m)
    case Block(u, v) => PutBlock(w.store, u, v)
    case _ => w.store
  }

  ghost function PhaseAfter(w: World, e: Event): map<Call, Phase> {
    match e
    case Begin(c, _) => w.phase[c := if c.direct then Finding else if c.liked then Checking else Returned(None)]
    case Check(c) => w.phase[c := if Reciprocated(w.store, c.user, c.target) then Finding else Returned(None)]
    case Find(c, found) => w.phase[c := if found.Some? then Returned(found) else Scoring]
    case Score(c) => w.phase[c := Inserting]
    case Insert(c) => w.phase[c := if HasMatch(w.store, c.user, c.target) then Rereading else Returned(Some(w.store.nextMatch))]
    case Reread(c, found) => w.phase[c := if found.Some? then Returned(found) else Failed]
    case Fail(c, _, _) => w.phase[c := Failed]
    case _ => w.phase
  }

  ghost function Step(w: World, e: Event): World { World(StoreAfter(w, e), PhaseAfter(w, e)) }

  ghost predicate Runs(w: World, es: seq<Event>, w': World)
    decreases |es|
  {
    if es == [] then w == w' else Enabled(w, es[0]) && Runs(Step(w, es[0]), es[1..], w')
  }

  /** When each statement can run: a SELECT finds a match of the pair if there is one, and only then. */
  lemma GuardsAre(w: World, c: Call, m: Id, u: Id, v: Id)
    ensures (var isPair := m in w.store.matches && w.store.matches[m] in {Match(c.user, c.target), Match(c.target, c.user)};
             && (Enabled(w, Find(c, Some(m))) <==> PhaseOf(w, c).Finding? && isPair)
             && (Enabled(w, Reread(c, Some(m))) <==> PhaseOf(w, c).Rereading? && isPair))
    ensures (var none := forall n :: n in w.store.matches ==>
               w.store.matches[n] !in {Match(c.user, c.target), Match(c.target, c.user)};
             && (Enabled(w, Find(c, None)) <==> PhaseOf(w, c).Finding? && none)
             && (Enabled(w, Reread(c, None)) <==> PhaseOf(w, c).Rereading? && none))
    ensures Enabled(w, Undo(u)) && Enabled(w, Unmatch(m)) && (Enabled(w, Block(u, v)) <==> u != v)
  {
  }

  /** Any call that has not returned can fail, at its first statement or its insert also after that took
      effect. */
  lemma FailureMayStand(w: World, c: Call, now: int)
    ensures Enabled(w, Fail(c, false, now)) <==> !PhaseOf(w, c).Returned? && !PhaseOf(w, c).Failed?
    ensures StoreAfter(w, Fail(c, false, now)) == w.store && PhaseOf(Step(w, Fail(c, false, now)), c).Failed?
    ensures PhaseOf(w, c).Fresh? && c.user != c.target && !c.direct ==>
      && Enabled(w, Fail(c, true, now))
      && StoreAfter(w, Fail(c, true, now)) == w.store.(swipes := w.store.swipes[(c.user, c.target) := SwipeRow(c.liked, now)])
    ensures PhaseOf(w, c).Inserting? && c.user != c.target && !HasMatch(w.store, c.user, c.target) ==>
      && Enabled(w, Fail(c, true, now)) && HasMatch(StoreAfter(w, Fail(c, true, now)), c.user, c.target)
  {
    if PhaseOf(w, c).Inserting? && c.user != c.target && !HasMatch(w.store, c.user, c.target) {
      assert StoreAfter(w, Fail(c, true, now)).matches[w.store.nextMatch] == Match(c.user, c.target);
    }
  }

  // ---- The tables stay consistent ----------------------------------------------------------

  lemma StepConsistent(w: World, e: Event)
    requires Consistent(w.store) && Enabled(w, e)
    ensures Consistent(StoreAfter(w, e))
  {
  }

  /** Over every run at all: at most one match per unordered pair, and one progress row each. */
  lemma {:induction false} AlwaysConsistent(w: World, es: seq<Event>, w': World)
    requires Consistent(w.store) && Runs(w, es, w')
    ensures Consistent(w'.store)
    ensures forall m, n :: m in w'.store.matches && n in w'.store.matches && m != n ==>
      w'.store.matches[n] !in {w'.store.matches[m], Match(w'.store.matches[m].b, w'.store.matches[m].a)}
    ensures forall m :: m in w'.store.matches <==> m in w'.store.progress
    decreases |es|
  {
    if es != [] {
      StepConsistent(w, es[0]);
      AlwaysConsistent(Step(w, es[0]), es[1..], w');
    }
  }

  // ---- Two users like each other -----------------------------------------------------------

  predicate OnPair(c: Call, a: Id, b: Id) { (c.user == a && c.target == b) || (c.user == b && c.target == a) }

  /** The event is no undo, pass, block or unmatch of the pair. */
  ghost predicate LeavesPair(w: World, e: Event, a: Id, b: Id) {
    match e
    case Begin(c, _) => OnPair(c, a, b) ==> c.liked
    case Fail(c, _, _) => OnPair(c, a, b) ==> c.liked
    case Undo(u) => forall k :: k in w.store.swipes && k in {(a, b), (b, a)} ==> k in UndoSwipe(w.store, u).swipes
    case Unmatch(m) => m in w.store.matches ==> !IsPair(w.store.matches[m], a, b)
    case Block(u, v) => !(u == a && v == b) && !(u == b && v == a)
    case _ => true
  }

  ghost predicate LeavesPairAlong(w: World, es: seq<Event>, a: Id, b: Id)
    decreases |es|
  {
    es != [] ==> LeavesPair(w, es[0], a, b) && LeavesPairAlong(Step(w, es[0]), es[1..], a, b)
  }

  ghost predicate Liking(c: Call, u: Id, v: Id) { c.user == u && c.target == v && c.liked && !c.direct }

  /** A like that got past its first statement is on record, and if it returned unmatched then no
      like in the other direction did. */
  ghost predicate LikeOk(w: World, c: Call) {
    !PhaseOf(w, c).Fresh? && !PhaseOf(w, c).Failed? ==> Likes(w.store, c.user, c.target)
  }

  ghost predicate Missed(w: World, c: Call) { PhaseOf(w, c) == Returned(None) }

  ghost predicate PairInv(w: World, x: Call, y: Call)
    requires x.user == y.target && x.target == y.user
  {
    && !Blocked(w.store, x.user, x.target)
    && LikeOk(w, x) && LikeOk(w, y)
    && !(Missed(w, x) && Missed(w, y))
    && (Matched(w, x) ==> HasMatch(w.store, x.user, x.target))
    && (Matched(w, y) ==> HasMatch(w.store, x.user, x.target))
  }

  ghost predicate Matched(w: World, c: Call) { PhaseOf(w, c).Returned? && PhaseOf(w, c).matched.Some? }

  lemma MatchSurvives(w: World, e: Event, u: Id, v: Id)
    requires LeavesPair(w, e, u, v) && HasMatch(w.store, u, v) && Consistent(w.store)
    ensures HasMatch(StoreAfter(w, e), u, v)
  {
    var m :| m in w.store.matches && IsPair(w.store.matches[m], u, v);
    assert m in StoreAfter(w, e).matches && StoreAfter(w, e).matches[m] == w.store.matches[m];
  }

  lemma LikeOkKept(w: World, e: Event, c: Call, a: Id, b: Id)
    requires Liking(c, a, b) && LikeOk(w, c) && Enabled(w, e)
    requires LeavesPair(w, e, a, b) || LeavesPair(w, e, b, a)
    ensures LikeOk(Step(w, e), c)
  {
  }

  lemma MatchedKept(w: World, e: Event, c: Call, a: Id, b: Id)
    requires OnPair(c, a, b) && Consistent(w.store) && Enabled(w, e) && LeavesPair(w, e, a, b)
    requires Matched(w, c) ==> HasMatch(w.store, a, b)
    ensures Matched(Step(w, e), c) ==> HasMatch(StoreAfter(w, e), a, b)
  {
    if HasMatch(w.store, a, b) {
      MatchSurvives(w, e, a, b);
    } else if e.Insert? && e.c == c {
      assert StoreAfter(w, e).matches[w.store.nextMatch] == Match(c.user, c.target);
    }
  }

  /** Whoever checks second sees the other's like. */
  lemma NotBothMissed(w: World, e: Event, x: Call, y: Call)
    requires Liking(x, x.user, x.target) && Liking(y, x.target, x.user) && x != y
    requires PairInv(w, x, y) && Enabled(w, e)
    ensures !(Missed(Step(w, e), x) && Missed(Step(w, e), y))
  {
  }

  lemma PairStep(w: World, e: Event, x: Call, y: Call)
    requires Liking(x, x.user, x.target) && Liking(y, x.target, x.user) && x != y
    requires PairInv(w, x, y) && Consistent(w.store) && Enabled(w, e) && LeavesPair(w, e, x.user, x.target)
    ensures PairInv(Step(w, e), x, y)
  {
    var a, b := x.user, x.target;
    NotBothMissed(w, e, x, y);
    MatchedKept(w, e, x, a, b);
    MatchedKept(w, e, y, a, b);
    LikeOkKept(w, e, x, a, b);
    LikeOkKept(w, e, y, b, a);
    hide Enabled, LikeOk, Matched, Missed, HasMatch, PhaseAfter;
    assert !Blocked(StoreAfter(w, e), a, b);
  }

  lemma {:induction false} PairInvAlong(w: World, es: seq<Event>, w': World, x: Call, y: Call)
    requires Liking(x, x.user, x.target) && Liking(y, x.target, x.user) && x != y
    requires PairInv(w, x, y) && Consistent(w.store) && Runs(w, es, w') && LeavesPairAlong(w, es, x.user, x.target)
    ensures PairInv(w', x, y)
    decreases |es|
  {
    if es != [] {
      PairStep(w, es[0], x, y);
      StepConsistent(w, es[0]);
      PairInvAlong(Step(w, es[0]), es[1..], w', x, y);
    }
  }

  /** Both users like each other at the same time, interleaved with anything that leaves the pair
      alone. Once both calls have returned without error, the pair has exactly one match row, that
      match has its progress row, and at least one call reported the match. */
  lemma MutualLikesMatch(w: World, es: seq<Event>, w': World, x: Call, y: Call)
    requires y.user == x.target && y.target == x.user && x != y
    requires x.liked && y.liked && !x.direct && !y.direct
    requires PhaseOf(w, x).Fresh? && PhaseOf(w, y).Fresh?
    requires Consistent(w.store) && !Blocked(w.store, x.user, x.target)
    requires Runs(w, es, w') && LeavesPairAlong(w, es, x.user, x.target)
    requires PhaseOf(w', x).Returned? && PhaseOf(w', y).Returned?
    ensures Matched(w', x) || Matched(w', y)
    ensures exists m :: m in w'.store.matches && m in w'.store.progress && IsPair(w'.store.matches[m], x.user, x.target)
    ensures forall m, n | m in w'.store.matches && n in w'.store.matches ::
      (IsPair(w'.store.matches[m], x.user, x.target) && IsPair(w'.store.matches[n], x.user, x.target) ==> m == n)
  {
    PairInvAlong(w, es, w', x, y);
    AlwaysConsistent(w, es, w');
  }

  // ---- One like is not enough --------------------------------------------------------------

  /** At no moment of the run does b's like of a stand, and nobody asks for the match directly. */
  ghost predicate NeverLikes(w: World, es: seq<Event>, b: Id, a: Id)
    decreases |es|
  {
    && !Likes(w.store, b, a)
    && (es != [] ==>
          && (es[0].Begin? ==> !(es[0].c.direct && OnPair(es[0].c, a, b)))
          && NeverLikes(Step(w, es[0]), es[1..], b, a))
  }

  /** No call on the pair has got past the check for the other's like. */
  ghost predicate Unchecked(w: World, c: Call) {
    match PhaseOf(w, c)
    case Fresh => true
    case Checking => c.liked && !c.direct
    case Returned(matched) => matched.None?
    case Failed => true
    case _ => false
  }

  ghost predicate OneSided(w: World, a: Id, b: Id) {
    && !HasMatch(w.store, a, b)
    && (forall c :: OnPair(c, a, b) ==> Unchecked(w, c))
    && (forall c: Call :: c.user == b && c.target == a ==> !PhaseOf(w, c).Checking?)
  }

  lemma OneSidedStep(w: World, e: Event, a: Id, b: Id)
    requires a != b && OneSided(w, a, b) && Enabled(w, e) && !Likes(w.store, b, a) && !Likes(StoreAfter(w, e), b, a)
    requires e.Begin? ==> !(e.c.direct && OnPair(e.c, a, b))
    ensures OneSided(Step(w, e), a, b)
  {
    var w' := Step(w, e);
    forall c | OnPair(c, a, b)
      ensures Unchecked(w', c)
    {
      assert Unchecked(w, c);
    }
    forall c: Call | c.user == b && c.target == a
      ensures !PhaseOf(w', c).Checking?
    {
      assert OnPair(c, a, b) && Unchecked(w, c);
    }
    NoNewMatch(w, e, a, b);
  }

  lemma NoNewMatch(w: World, e: Event, a: Id, b: Id)
    requires OneSided(w, a, b) && Enabled(w, e)
    ensures !HasMatch(StoreAfter(w, e), a, b)
  {
    if e.Insert? || e.Fail? {
      assert OnPair(e.c, a, b) ==> Unchecked(w, e.c);
    }
  }

  lemma {:induction false} OneSidedAlong(w: World, es: seq<Event>, w': World, a: Id, b: Id)
    requires a != b && OneSided(w, a, b) && Runs(w, es, w') && NeverLikes(w, es, b, a)
    ensures OneSided(w', a, b)
    decreases |es|
  {
    if es != [] {
      OneSidedStep(w, es[0], a, b);
      hide OneSided, Enabled, Likes;
      OneSidedAlong(Step(w, es[0]), es[1..], w', a, b);
    }
  }

  /** However the calls of any users interleave: if b's like of a never stands, a and b never come to
      have a match, however often a likes b. */
  lemma OneLikeIsNotEnough(w: World, es: seq<Event>, w': World, a: Id, b: Id)
    requires a != b && forall m :: m in w.store.matches ==> w.store.matches[m] !in {Match(a, b), Match(b, a)}
    requires forall c :: OnPair(c, a, b) ==> PhaseOf(w, c).Fresh?
    requires Runs(w, es, w') && NeverLikes(w, es, b, a)
    ensures forall m :: m in w'.store.matches ==> w'.store.matches[m] !in {Match(a, b), Match(b, a)}
    ensures forall c :: OnPair(c, a, b) ==> !Matched(w', c)
  {
    forall c: Call | c.user == b && c.target == a
      ensures PhaseOf(w, c).Fresh?
    {
      assert OnPair(c, a, b);
    }
    OneSidedAlong(w, es, w', a, b);
    forall c | OnPair(c, a, b)
      ensures !Matched(w', c)
    {
      assert Unchecked(w', c);
    }
  }

  // ---- Two likes at once come through ------------------------------------------------------

  lemma Prepend(w: World, e: Event, es: seq<Event>, w': World, a: Id, b: Id) returns (all: seq<Event>)
    requires Enabled(w, e) && LeavesPair(w, e, a, b)
    requires Runs(Step(w, e), es, w') && LeavesPairAlong(Step(w, e), es, a, b)
    ensures Runs(w, all, w') && LeavesPairAlong(w, all, a, b)
  {
    all := [e] + es;
    assert all[1..] == es;
  }

  /** Both likes stand and both calls have the given phase. */
  ghost predicate Both(w: World, x: Call, y: Call, p: Phase) {
    && PhaseOf(w, x) == p && PhaseOf(w, y) == p && !HasMatch(w.store, x.user, x.target)
    && Reciprocated(w.store, x.user, x.target) && Reciprocated(w.store, x.target, x.user)
  }

  ghost predicate Opposite(x: Call, y: Call) {
    Liking(x, x.user, x.target) && Liking(y, x.target, x.user) && x != y && x.user != x.target
  }

  lemma BothBegin(w: World, x: Call, y: Call, now: int) returns (w': World)
    requires Opposite(x, y) && PhaseOf(w, x).Fresh? && PhaseOf(w, y).Fresh?
    requires !Blocked(w.store, x.user, x.target) && !HasMatch(w.store, x.user, x.target)
    ensures Enabled(w, Begin(x, now)) && Enabled(Step(w, Begin(x, now)), Begin(y, now))
    ensures w' == Step(Step(w, Begin(x, now)), Begin(y, now)) && Both(w', x, y, Checking)
  {
    w' := Step(Step(w, Begin(x, now)), Begin(y, now));
  }

  /** One statement of both calls that leaves the tables alone. */
  lemma BothGoOn(w: World, x: Call, y: Call, p: Phase, q: Phase, e: Event, f: Event) returns (w': World)
    requires Opposite(x, y) && Both(w, x, y, p)
    requires || (p == Checking && q == Finding && e == Check(x) && f == Check(y))
             || (p == Finding && q == Scoring && e == Find(x, None) && f == Find(y, None))
             || (p == Scoring && q == Inserting && e == Score(x) && f == Score(y))
    ensures Enabled(w, e) && Enabled(Step(w, e), f) && w' == Step(Step(w, e), f) && Both(w', x, y, q)
    ensures LeavesPair(w, e, x.user, x.target) && LeavesPair(Step(w, e), f, x.user, x.target)
  {
    w' := Step(Step(w, e), f);
  }

  /** The second insert finds the index taken, and its call reads the first one's match. */
  lemma BothInsert(w: World, x: Call, y: Call) returns (es: seq<Event>, w': World)
    requires Opposite(x, y) && Both(w, x, y, Inserting)
    ensures Runs(w, es, w') && LeavesPairAlong(w, es, x.user, x.target)
    ensures Matched(w', x) && PhaseOf(w', y) == PhaseOf(w', x)
  {
    var m := Some(w.store.nextMatch);
    var w1 := Step(w, Insert(x));
    assert w1.store.matches[w.store.nextMatch] == Match(x.user, x.target);
    assert HasMatch(w1.store, x.user, x.target);
    var w2 := Step(w1, Insert(y));
    w' := Step(w2, Reread(y, m));
    es := Prepend(w2, Reread(y, m), [], w', x.user, x.target);
    es := Prepend(w1, Insert(y), es, w', x.user, x.target);
    es := Prepend(w, Insert(x), es, w', x.user, x.target);
  }

  /** Two users who like each other can go through every statement side by side, both finding no match
      and both trying to insert one; then both calls report the same match. */
  lemma SideBySide(w: World, x: Call, y: Call, now: int) returns (es: seq<Event>, w': World)
    requires y.user == x.target && y.target == x.user && x.user != x.target
    requires x.liked && y.liked && !x.direct && !y.direct
    requires x != y && PhaseOf(w, x).Fresh? && PhaseOf(w, y).Fresh?
    requires !Blocked(w.store, x.user, x.target) && !HasMatch(w.store, x.user, x.target)
    ensures Runs(w, es, w') && LeavesPairAlong(w, es, x.user, x.target)
    ensures Matched(w', x) && PhaseOf(w', y) == PhaseOf(w', x)
  {
    var a, b := x.user, x.target;
    assert Opposite(x, y);
    BeginLeavesPair(w, x, y, now);
    hide *;
    var w1 := BothBegin(w, x, y, now);
    var w2 := BothGoOn(w1, x, y, Checking, Finding, Check(x), Check(y));
    var w3 := BothGoOn(w2, x, y, Finding, Scoring, Find(x, None), Find(y, None));
    var w4 := BothGoOn(w3, x, y, Scoring, Inserting, Score(x), Score(y));
    es, w' := BothInsert(w4, x, y);
    es := Prepend(Step(w3, Score(x)), Score(y), es, w', a, b);
    es := Prepend(w3, Score(x), es, w', a, b);
    es := Prepend(Step(w2, Find(x, None)), Find(y, None), es, w', a, b);
    es := Prepend(w2, Find(x, None), es, w', a, b);
    es := Prepend(Step(w1, Check(x)), Check(y), es, w', a, b);
    es := Prepend(w1, Check(x), es, w', a, b);
    es := Prepend(Step(w, Begin(x, now)), Begin(y, now), es, w', a, b);
    es := Prepend(w, Begin(x, now), es, w', a, b);
  }

  lemma BeginLeavesPair(w: World, x: Call, y: Call, now: int)
    requires Opposite(x, y)
    ensures forall v :: LeavesPair(v, Begin(x, now), x.user, x.target) && LeavesPair(v, Begin(y, now), x.user, x.target)
  {
  }
}
