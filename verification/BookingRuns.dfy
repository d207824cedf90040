/** Any number of replicas proposing, confirming, cancelling and reminding on one database.
    Confirm's read and its write are separate steps; every other call is one statement or one
    transaction. */
module BookingRuns {
  import opened Bookings

  datatype Call = Call(id: nat, m: Id, user: Id)

  datatype World = World(
    t: Table,
    picked: map<Call, nat>,      // the row each unfinished Confirm has read
    confirmedBy: map<nat, Id>,   // who last confirmed each row
    now: int)

  datatype Event =
    | Tick(d: nat)
    | Propose(m: Id, user: Id, restaurant: string, scheduledAt: int)
    | ReadProposal(c: Call, i: nat)
    | WriteConfirmed(c: Call)
    | ConfirmAtOnce(c: Call, i: nat)
    | CancelNewest(m: Id, user: Id, i: nat)
    | RunDue(k: Kind)            // one of RunDue's two statements

  /** What Confirm checks before its UPDATE. */
  ghost predicate Confirmable(w: World, c: Call, i: nat) {
    IsMember(w.t.matches, c.m, c.user) && IsNewest(w.t.rows, c.m, true, i) && w.t.rows[i].proposedBy != c.user
  }

  ghost predicate Enabled(w: World, e: Event) {
    match e
    case Tick(_) => true
    case Propose(m, user, restaurant, at) =>
      IsMember(w.t.matches, m, user) && ValidateProposal(restaurant, at, w.now).None?
    case ReadProposal(c, i) => Confirmable(w, c, i)
    case WriteConfirmed(c) => c in w.picked && w.picked[c] < |w.t.rows|
    case ConfirmAtOnce(c, i) => Confirmable(w, c, i)
    case CancelNewest(m, user, i) => IsMember(w.t.matches, m, user) && IsNewest(w.t.rows, m, false, i)
    case RunDue(_) => true
  }

  ghost function ConfirmRow(w: World, c: Call, i: nat): World
    requires i < |w.t.rows|
  {
    w.(t := w.t.(rows := PutConfirmed(w.t.rows, i, w.now)),
       confirmedBy := if MayBeLive(w.t.rows, i) then w.confirmedBy[i := c.user] else w.confirmedBy)
  }

  ghost function Step(w: World, e: Event): World
    requires Enabled(w, e)
  {
    match e
    case Tick(d) => w.(now := w.now + d)
    case Propose(m, user, restaurant, at) =>
      w.(t := w.t.(rows := PutProposal(w.t.rows, m, user, restaurant, at, w.now)))
    case ReadProposal(c, i) => w.(picked := w.picked[c := i])
    case WriteConfirmed(c) => ConfirmRow(w, c, w.picked[c]).(picked := w.picked - {c})
    case ConfirmAtOnce(c, i) => ConfirmRow(w, c, i)
    case CancelNewest(_, _, i) => w.(t := w.t.(rows := w.t.rows[i := Cancel(w.t.rows[i], w.now)]))
    case RunDue(k) => w.(t := Remind(w.t, k, w.now))
  }

  ghost predicate Runs(w: World, es: seq<Event>, w': World)
    decreases |es|
  {
    if es == [] then w == w' else Enabled(w, es[0]) && Runs(Step(w, es[0]), es[1..], w')
  }

  ghost predicate Start(w: World) { w.t.rows == [] && w.t.notes == [] && w.picked == map[] && w.confirmedBy == map[] }

  /** i is the match's newest row with one of these states. */
  ghost predicate NewestWith(w: World, m: Id, states: set<Status>, i: nat) {
    && i < |w.t.rows| && w.t.rows[i].matchID == m && w.t.rows[i].status in states
    && forall j :: i < j < |w.t.rows| && w.t.rows[j].matchID == m ==> w.t.rows[j].status !in states
  }

  /** When each call can take its step. */
  lemma GuardsAre(w: World, c: Call, i: nat, restaurant: string, at: int, d: nat, k: Kind)
    ensures Enabled(w, Tick(d)) && Enabled(w, RunDue(k))
    ensures (var member := c.m in w.t.matches && c.user in {w.t.matches[c.m].a, w.t.matches[c.m].b};
             && (Enabled(w, Propose(c.m, c.user, restaurant, at)) <==> member && restaurant != "" && at > w.now)
             && (Enabled(w, CancelNewest(c.m, c.user, i)) <==> member && NewestWith(w, c.m, {Proposed, Confirmed}, i))
             && (Enabled(w, ReadProposal(c, i)) <==>
                   member && NewestWith(w, c.m, {Proposed}, i) && w.t.rows[i].proposedBy != c.user)
             && (Enabled(w, ConfirmAtOnce(c, i)) <==> Enabled(w, ReadProposal(c, i))))
    ensures Enabled(w, WriteConfirmed(c)) <==> c in w.picked && w.picked[c] < |w.t.rows|
  {
  }

  /** What the steps that are one statement do: time passes, and a confirmation at once makes its row
      confirmed unless another row of the match is live. */
  lemma StepsAre(w: World, c: Call, i: nat, d: nat)
    ensures Step(w, Tick(d)) == w.(now := w.now + d)
    ensures Enabled(w, ConfirmAtOnce(c, i)) ==>
      var w' := Step(w, ConfirmAtOnce(c, i));
      var clash := exists j :: 0 <= j < |w.t.rows| && j != i && w.t.rows[j].matchID == c.m && w.t.rows[j].status != Cancelled;
      && w'.t.rows == (if clash then w.t.rows else w.t.rows[i := w.t.rows[i].(status := Confirmed, updatedAt := w.now)])
      && w'.picked == w.picked && w'.now == w.now
  {
  }

  // ---- What every step keeps ---------------------------------------------------------------

  /** The moments at which a reminder of kind k may be sent, [Opens, Closes). */
  function Opens(b: Booking, k: Kind): int { b.scheduledAt - if k.Day? then 24 * HOUR else 2 * HOUR }

  function Closes(b: Booking, k: Kind): int { b.scheduledAt - if k.Day? then 2 * HOUR else 0 }

  ghost predicate StampedInTime(b: Booking, k: Kind) {
    Reminded(b, k).Some? ==> Opens(b, k) <= Reminded(b, k).value < Closes(b, k)
  }

  ghost predicate Agreed(w: World, i: nat)
    requires i < |w.t.rows|
  {
    var b := w.t.rows[i];
    b.status == Confirmed ==>
      i in w.confirmedBy && IsMember(w.t.matches, b.matchID, w.confirmedBy[i]) && w.confirmedBy[i] != b.proposedBy
  }

  ghost predicate RowOk(w: World, i: nat)
    requires i < |w.t.rows|
  {
    var b := w.t.rows[i];
    && IsMember(w.t.matches, b.matchID, b.proposedBy)
    && (Live(b) ==> MayBeLive(w.t.rows, i))
    && Agreed(w, i)
    && StampedInTime(b, Day) && StampedInTime(b, Hours)
  }

  ghost predicate PickedOk(w: World, c: Call)
    requires c in w.picked
  {
    && w.picked[c] < |w.t.rows| && w.t.rows[w.picked[c]].matchID == c.m
    && IsMember(w.t.matches, c.m, c.user) && w.t.rows[w.picked[c]].proposedBy != c.user
  }

  ghost predicate Inv(w: World) {
    && (forall i: nat :: i < |w.t.rows| ==> RowOk(w, i))
    && (forall c :: c in w.picked ==> PickedOk(w, c))
  }

  lemma ProposeKeeps(w: World, e: Event)
    requires e.Propose? && Inv(w) && Enabled(w, e)
    ensures Inv(Step(w, e))
  {
    var w' := Step(w, e);
    var n := |w.t.rows|;
    assert forall j | 0 <= j < n :: !LiveFor(w'.t.rows[j], e.m);
    forall i: nat | i < |w'.t.rows|
      ensures RowOk(w', i)
    {
      if i < n {
        assert RowOk(w, i);
      }
    }
    forall c | c in w'.picked
      ensures PickedOk(w', c)
    {
      assert PickedOk(w, c);
    }
  }

  lemma ConfirmKeeps(w: World, c: Call, i: nat)
    requires Inv(w) && i < |w.t.rows| && w.t.rows[i].matchID == c.m
    requires IsMember(w.t.matches, c.m, c.user) && w.t.rows[i].proposedBy != c.user
    ensures Inv(ConfirmRow(w, c, i))
  {
    var w' := ConfirmRow(w, c, i);
    forall j: nat | j < |w'.t.rows|
      ensures RowOk(w', j)
    {
      assert RowOk(w, j);
    }
    forall d | d in w'.picked
      ensures PickedOk(w', d)
    {
      assert PickedOk(w, d);
    }
  }

  lemma RemindKeeps(w: World, e: Event)
    requires e.RunDue? && Inv(w) && Enabled(w, e)
    ensures Inv(Step(w, e))
  {
    var w' := Step(w, e);
    forall i: nat | i < |w'.t.rows|
      ensures RowOk(w', i)
    {
      assert RowOk(w, i);
      assert w'.t.rows[i] == Stamp(w.t.rows[i], e.k, w.now);
    }
    forall c | c in w'.picked
      ensures PickedOk(w', c)
    {
      assert PickedOk(w, c);
    }
  }

  lemma CancelKeeps(w: World, e: Event)
    requires e.CancelNewest? && Inv(w) && Enabled(w, e)
    ensures Inv(Step(w, e))
  {
    var w' := Step(w, e);
    forall i: nat | i < |w'.t.rows|
      ensures RowOk(w', i)
    {
      assert RowOk(w, i);
    }
    forall c | c in w'.picked
      ensures PickedOk(w', c)
    {
      assert PickedOk(w, c);
    }
  }

  lemma StepKeeps(w: World, e: Event)
    requires Inv(w) && Enabled(w, e)
    ensures Inv(Step(w, e))
  {
    match e
    case Propose(_, _, _, _) => ProposeKeeps(w, e);
    case WriteConfirmed(c) =>
      assert PickedOk(w, c);
      ConfirmKeeps(w, c, w.picked[c]);
      var u := ConfirmRow(w, c, w.picked[c]);
      forall i: nat | i < |u.t.rows|
        ensures RowOk(Step(w, e), i)
      {
        assert RowOk(u, i);
      }
      forall d | d in Step(w, e).picked
        ensures PickedOk(Step(w, e), d)
      {
        assert PickedOk(u, d);
      }
    case ConfirmAtOnce(c, i) => ConfirmKeeps(w, c, i);
    case CancelNewest(_, _, _) => CancelKeeps(w, e);
    case RunDue(_) => RemindKeeps(w, e);
    case _ =>
      forall i: nat | i < |w.t.rows|
        ensures RowOk(Step(w, e), i)
      {
        assert RowOk(w, i);
      }
      forall d | d in Step(w, e).picked
        ensures PickedOk(Step(w, e), d)
      {
        assert d in w.picked ==> PickedOk(w, d);
      }
  }

  lemma {:induction false} RunKeeps(w: World, es: seq<Event>, w': World)
    requires Inv(w) && Runs(w, es, w')
    ensures Inv(w')
    decreases |es|
  {
    if es != [] {
      StepKeeps(w, es[0]);
      RunKeeps(Step(w, es[0]), es[1..], w');
    }
  }

  /** In every interleaving: at most one proposed-or-confirmed booking per match; a confirmed booking
      was confirmed by a member of its match other than its proposer; reminders went out in their
      window. */
  lemma BookingsStaySound(w: World, es: seq<Event>, w': World)
    requires Start(w) && Runs(w, es, w')
    ensures forall i, j | 0 <= i < |w'.t.rows| && 0 <= j < |w'.t.rows| ::
      (Live(w'.t.rows[i]) && LiveFor(w'.t.rows[j], w'.t.rows[i].matchID) ==> i == j)
    ensures forall i: nat | i < |w'.t.rows| :: Agreed(w', i)
    ensures forall i: nat, k | i < |w'.t.rows| :: StampedInTime(w'.t.rows[i], k)
  {
    RunKeeps(w, es, w');
    forall i: nat | i < |w'.t.rows|
      ensures Agreed(w', i) && (Live(w'.t.rows[i]) ==> MayBeLive(w'.t.rows, i))
      ensures StampedInTime(w'.t.rows[i], Day) && StampedInTime(w'.t.rows[i], Hours)
    {
      assert RowOk(w', i);
    }
  }

  // ---- Cancelled bookings ------------------------------------------------------------------

  predicate Revives(w: World, e: Event, i: nat)
    requires i < |w.t.rows|
  {
    e.WriteConfirmed? && e.c in w.picked && w.picked[e.c] == i
  }

  /** A cancelled booking becomes live in a step exactly when a Confirm that read it earlier writes
      now, and the match has no other live booking. */
  lemma RevivedIff(w: World, e: Event, i: nat)
    requires Enabled(w, e) && i < |w.t.rows| && w.t.rows[i].status == Cancelled
    ensures i < |Step(w, e).t.rows|
    ensures Live(Step(w, e).t.rows[i]) <==> Revives(w, e, i) && MayBeLive(w.t.rows, i)
  {
  }

  /** An unfinished Confirm has read row i. */
  predicate Held(w: World, i: nat) { exists c :: c in w.picked && w.picked[c] == i }

  lemma CancelledStep(w: World, e: Event, i: nat)
    requires Enabled(w, e) && i < |w.t.rows| && w.t.rows[i].status == Cancelled && !Held(w, i)
    ensures (var w' := Step(w, e); i < |w'.t.rows| && w'.t.rows[i].status == Cancelled && !Held(w', i))
  {
    RevivedIff(w, e, i);
    PickedFrom(w, e, i);
  }

  /** Only a proposed row is read. */
  lemma PickedFrom(w: World, e: Event, i: nat)
    requires Enabled(w, e) && i < |w.t.rows| && w.t.rows[i].status == Cancelled
    ensures Held(Step(w, e), i) ==> Held(w, i)
  {
    if c :| c in Step(w, e).picked && Step(w, e).picked[c] == i {
      assert c in w.picked && w.picked[c] == i;
    }
  }

  /** A cancelled booking stays cancelled in every run, unless an unfinished Confirm has read it. */
  lemma {:induction false} CancelledIsFinal(w: World, es: seq<Event>, w': World, i: nat)
    requires Runs(w, es, w') && !Held(w, i)
    requires i < |w.t.rows| && w.t.rows[i].status == Cancelled
    ensures i < |w'.t.rows| && w'.t.rows[i].status == Cancelled
    decreases |es|
  {
    if es != [] {
      CancelledStep(w, es[0], i);
      hide Held, Step, Enabled;
      CancelledIsFinal(Step(w, es[0]), es[1..], w', i);
    }
  }

  lemma Prepend(w: World, e: Event, es: seq<Event>, w': World) returns (all: seq<Event>)
    requires Enabled(w, e) && Runs(Step(w, e), es, w')
    ensures Runs(w, all, w') && all == [e] + es
  {
    all := [e] + es;
    assert all[1..] == es;
  }

  /** If another booking of the match is live, a member can cancel it. */
  lemma MakeRoom(w: World, c: Call) returns (es: seq<Event>, w': World)
    requires Inv(w) && c in w.picked && w.t.rows[w.picked[c]].status == Cancelled
    ensures Runs(w, es, w') && Inv(w') && c in w'.picked && w'.picked[c] == w.picked[c] < |w'.t.rows|
    ensures w'.t.rows[w'.picked[c]].status == Cancelled && MayBeLive(w'.t.rows, w'.picked[c])
  {
    var i := w.picked[c];
    assert PickedOk(w, c);
    if MayBeLive(w.t.rows, i) {
      es, w' := [], w;
    } else {
      var j: nat :| j < |w.t.rows| && j != i && LiveFor(w.t.rows[j], w.t.rows[i].matchID);
      assert RowOk(w, j);
      var e := CancelNewest(c.m, c.user, j);
      w' := Step(w, e);
      StepKeeps(w, e);
      es := Prepend(w, e, [], w');
    }
  }

  ghost predicate CanBeRevived(w: World, i: nat) {
    exists es, w' :: Runs(w, es, w') && i < |w'.t.rows| && Live(w'.t.rows[i])
  }

  /** The exact condition: a cancelled booking can come back if and only if an unfinished Confirm has
      read it. */
  lemma RevivableIff(start: World, before: seq<Event>, w: World, i: nat)
    requires Start(start) && Runs(start, before, w) && i < |w.t.rows| && w.t.rows[i].status == Cancelled
    ensures CanBeRevived(w, i) <==> Held(w, i)
  {
    RunKeeps(start, before, w);
    if Held(w, i) {
      var c :| c in w.picked && w.picked[c] == i;
      var es, v := MakeRoom(w, c);
      RevivedIff(v, WriteConfirmed(c), i);
      var w' := Step(v, WriteConfirmed(c));
      var last := Prepend(v, WriteConfirmed(c), [], w');
      var all := Join(w, es, v, last, w');
    } else {
      forall es, w' | Runs(w, es, w')
        ensures !(i < |w'.t.rows| && Live(w'.t.rows[i]))
      {
        CancelledIsFinal(w, es, w', i);
      }
    }
  }

  lemma {:induction false} Join(w: World, es: seq<Event>, v: World, more: seq<Event>, w': World) returns (all: seq<Event>)
    requires Runs(w, es, v) && Runs(v, more, w')
    ensures Runs(w, all, w')
    decreases |es|
  {
    if es == [] {
      all := more;
    } else {
      all := Join(Step(w, es[0]), es[1..], v, more, w');
      all := Prepend(w, es[0], all, w');
    }
  }

  /** A match between users 1 and 2, and the proposal of user 1. */
  const EMPTY: World := World(Table(map[0 := Pair(1, 2)], [], []), map[], map[], 0)

  const PROPOSAL: Booking := NewBooking(0, 1, "Pho", 9, 0)

  function WithRow(b: Booking, picked: map<Call, nat>): World { World(EMPTY.t.(rows := [b]), picked, map[], 0) }

  lemma ReadBeforeCancel(c: Call)
    requires c == Call(0, 0, 2)
    ensures (var e := Propose(0, 1, "Pho", 9); Enabled(EMPTY, e) && Step(EMPTY, e) == WithRow(PROPOSAL, map[]))
    ensures (var e := ReadProposal(c, 0);
             Enabled(WithRow(PROPOSAL, map[]), e) && Step(WithRow(PROPOSAL, map[]), e) == WithRow(PROPOSAL, map[c := 0]))
  {
    assert PutProposal([], 0, 1, "Pho", 9, 0) == [PROPOSAL];
  }

  lemma CancelBeforeWrite(c: Call) returns (w': World)
    requires c == Call(0, 0, 2)
    ensures (var e := CancelNewest(0, 1, 0); var w := WithRow(PROPOSAL, map[c := 0]);
             Enabled(w, e) && Step(w, e) == WithRow(Cancel(PROPOSAL, 0), map[c := 0]))
    ensures Enabled(WithRow(Cancel(PROPOSAL, 0), map[c := 0]), WriteConfirmed(c))
    ensures w' == Step(WithRow(Cancel(PROPOSAL, 0), map[c := 0]), WriteConfirmed(c))
    ensures |w'.t.rows| == 1 && w'.t.rows[0].status == Confirmed
  {
    var w := WithRow(Cancel(PROPOSAL, 0), map[c := 0]);
    assert MayBeLive(w.t.rows, 0);
    w' := Step(w, WriteConfirmed(c));
  }

  /** With the two-step Confirm it is not final: read, cancel, write. */
  lemma CancelledIsNotFinal() returns (w: World, es: seq<Event>, w': World)
    ensures Start(w) && Runs(w, es, w')
    ensures exists k :: 0 < k < |es| && es[k].CancelNewest? && es[k].i == 0
    ensures |w'.t.rows| == 1 && w'.t.rows[0].status == Confirmed
  {
    var c := Call(0, 0, 2);
    w := EMPTY;
    ReadBeforeCancel(c);
    w' := CancelBeforeWrite(c);
    hide Enabled, Step, WithRow;
    es := Prepend(WithRow(Cancel(PROPOSAL, 0), map[c := 0]), WriteConfirmed(c), [], w');
    es := Prepend(WithRow(PROPOSAL, map[c := 0]), CancelNewest(0, 1, 0), es, w');
    es := Prepend(WithRow(PROPOSAL, map[]), ReadProposal(c, 0), es, w');
    es := Prepend(EMPTY, Propose(0, 1, "Pho", 9), es, w');
    assert es[2] == CancelNewest(0, 1, 0);
  }
}
