/** The bookings and notifications tables with the statements of anmates-api/services/booking.go and
    anmates-api/services/reminders.go. Rows are never deleted; a row's id is its position. */
module Bookings {
  import opened Wrappers

  type Id = nat

  const HOUR: int := 3600

  datatype Status = Proposed | Confirmed | Cancelled

  datatype Kind = Day | Hours      // the 24 h and the 2 h reminder

  datatype Booking = Booking(
    matchID: Id, proposedBy: Id, restaurant: string, scheduledAt: int, status: Status, updatedAt: int,
    reminded24h: Option<int>, reminded2h: Option<int>)

  datatype Notification = Notification(user: Id, kind: Kind, matchID: Id, actor: Id)

  datatype Pair = Pair(a: Id, b: Id)

  datatype Table = Table(matches: map<Id, Pair>, rows: seq<Booking>, notes: seq<Notification>)

  datatype Error = NotMember | NoVenue | PastSchedule | NoBooking | ConfirmOwn | Conflict

  datatype Result<+T> = Ok(value: T) | Err(error: Error)

  predicate Live(b: Booking) { b.status != Cancelled }

  predicate LiveFor(b: Booking, m: Id) { b.matchID == m && Live(b) }

  predicate IsMember(matches: map<Id, Pair>, m: Id, user: Id) {
    m in matches && (matches[m].a == user || matches[m].b == user)
  }

  function ValidateProposal(restaurant: string, scheduledAt: int, now: int): Option<Error> {
    if restaurant == "" then Some(NoVenue)
    else if scheduledAt <= now then Some(PastSchedule)
    else None
  }

  // ---- Statements --------------------------------------------------------------------------

  function Cancel(b: Booking, now: int): Booking { b.(status := Cancelled, updatedAt := now) }

  /** Cancels the match's live bookings. */
  function CancelLive(rows: seq<Booking>, m: Id, now: int): (after: seq<Booking>)
    ensures |after| == |rows|
    ensures forall i :: 0 <= i < |rows| ==> after[i] == if LiveFor(rows[i], m) then Cancel(rows[i], now) else rows[i]
  {
    seq(|rows|, i requires 0 <= i < |rows| => if LiveFor(rows[i], m) then Cancel(rows[i], now) else rows[i])
  }

  function NewBooking(m: Id, user: Id, restaurant: string, scheduledAt: int, now: int): Booking {
    Booking(m, user, restaurant, scheduledAt, Proposed, now, None, None)
  }

  /** The rows Confirm (only proposed ones) and Cancel (all live ones) choose from. */
  predicate Wanted(b: Booking, m: Id, onlyProposed: bool) {
    LiveFor(b, m) && (onlyProposed ==> b.status == Proposed)
  }

  ghost predicate IsNewest(rows: seq<Booking>, m: Id, onlyProposed: bool, i: nat) {
    && i < |rows| && Wanted(rows[i], m, onlyProposed)
    && forall j :: i < j < |rows| ==> !Wanted(rows[j], m, onlyProposed)
  }

  /** Propose's transaction. */
  function PutProposal(rows: seq<Booking>, m: Id, user: Id, restaurant: string, scheduledAt: int, now: int): seq<Booking> {
    CancelLive(rows, m, now) + [NewBooking(m, user, restaurant, scheduledAt, now)]
  }

  /** The partial unique index uq_bookings_active: no other live row of the match. */
  ghost predicate MayBeLive(rows: seq<Booking>, i: nat)
    requires i < |rows|
  {
    forall j :: 0 <= j < |rows| && j != i ==> !LiveFor(rows[j], rows[i].matchID)
  }

  /** Confirm's UPDATE: by id alone, refused by the index if another row is live. */
  ghost function PutConfirmed(rows: seq<Booking>, i: nat, now: int): seq<Booking>
    requires i < |rows|
  {
    if MayBeLive(rows, i) then rows[i := rows[i].(status := Confirmed, updatedAt := now)] else rows
  }

  // ---- Reminders ---------------------------------------------------------------------------

  function Reminded(b: Booking, k: Kind): Option<int> { if k.Day? then b.reminded24h else b.reminded2h }

  predicate Due(b: Booking, k: Kind, now: int) {
    && b.status == Confirmed && Reminded(b, k).None?
    && match k
       case Day =>
         && now + 2 * HOUR < b.scheduledAt <= now + 24 * HOUR
         && b.updatedAt <= b.scheduledAt - 20 * HOUR
       case Hours => now < b.scheduledAt <= now + 2 * HOUR
  }

  function Stamp(b: Booking, k: Kind, now: int): Booking {
    if !Due(b, k, now) then b
    else if k.Day? then b.(reminded24h := Some(now)) else b.(reminded2h := Some(now))
  }

  function StampAll(rows: seq<Booking>, k: Kind, now: int): (after: seq<Booking>)
    ensures |after| == |rows|
    ensures forall i :: 0 <= i < |rows| ==> after[i] == Stamp(rows[i], k, now)
  {
    if rows == [] then []
    else StampAll(rows[..|rows| - 1], k, now) + [Stamp(rows[|rows| - 1], k, now)]
  }

  /** Both members of each claimed booking's match are notified about the other. */
  function Notes(matches: map<Id, Pair>, rows: seq<Booking>, k: Kind, now: int): seq<Notification> {
    if rows == [] then []
    else
      var b := rows[|rows| - 1];
      Notes(matches, rows[..|rows| - 1], k, now) +
      if Due(b, k, now) && b.matchID in matches then
        var p := matches[b.matchID];
        [Notification(p.a, k, b.matchID, p.b), Notification(p.b, k, b.matchID, p.a)]
      else []
  }

  /** UPDATE ... RETURNING joined with INSERT: one statement, one atomic step. */
  function Remind(t: Table, k: Kind, now: int): Table {
    t.(rows := StampAll(t.rows, k, now), notes := t.notes + Notes(t.matches, t.rows, k, now))
  }

  /** A reminder statement stamps a booking if it is confirmed, has no stamp of the kind, and its time is
      near: within a day but more than two hours off, and settled twenty hours ahead; or within two
      hours. Nothing else of any booking changes. */
  lemma StampsAre(b: Booking, now: int)
    ensures Stamp(b, Day, now) ==
      if b.status == Confirmed && b.reminded24h.None? && now + 7200 < b.scheduledAt <= now + 86400
         && b.updatedAt <= b.scheduledAt - 72000
      then b.(reminded24h := Some(now)) else b
    ensures Stamp(b, Hours, now) ==
      if b.status == Confirmed && b.reminded2h.None? && now < b.scheduledAt <= now + 7200
      then b.(reminded2h := Some(now)) else b
  {
  }

  /** The notifications of one stamped booking: each member is told about the other. */
  predicate Tells(matches: map<Id, Pair>, b: Booking, k: Kind, n: Notification) {
    && n.kind == k && n.matchID == b.matchID && b.matchID in matches
    && (|| (n.user == matches[b.matchID].a && n.actor == matches[b.matchID].b)
        || (n.user == matches[b.matchID].b && n.actor == matches[b.matchID].a))
  }

  lemma {:induction false} NotesAre(matches: map<Id, Pair>, rows: seq<Booking>, k: Kind, now: int)
    ensures forall n :: n in Notes(matches, rows, k, now) <==>
      exists i :: 0 <= i < |rows| && Stamp(rows[i], k, now) != rows[i] && Tells(matches, rows[i], k, n)
  {
    if rows != [] {
      var front, b := rows[..|rows| - 1], rows[|rows| - 1];
      NotesAre(matches, front, k, now);
      forall n
        ensures n in Notes(matches, rows, k, now) <==>
          exists i :: 0 <= i < |rows| && Stamp(rows[i], k, now) != rows[i] && Tells(matches, rows[i], k, n)
      {
        assert n in Notes(matches, rows, k, now) <==>
          n in Notes(matches, front, k, now) || (Stamp(b, k, now) != b && Tells(matches, b, k, n));
        if i :| 0 <= i < |rows| && Stamp(rows[i], k, now) != rows[i] && Tells(matches, rows[i], k, n) {
          assert i < |front| ==> front[i] == rows[i];
        }
        if i :| 0 <= i < |front| && Stamp(front[i], k, now) != front[i] && Tells(matches, front[i], k, n) {
          assert rows[i] == front[i];
        }
      }
    }
  }

  /** One statement: every row is stamped or not, and exactly the members of the stamped bookings'
      matches are told, each about the other. */
  lemma RemindersAre(t: Table, k: Kind, now: int)
    ensures Remind(t, k, now).matches == t.matches && |Remind(t, k, now).rows| == |t.rows|
    ensures forall i :: 0 <= i < |t.rows| ==> Remind(t, k, now).rows[i] == Stamp(t.rows[i], k, now)
    ensures t.notes <= Remind(t, k, now).notes
    ensures forall n :: n in Remind(t, k, now).notes[|t.notes|..] <==>
      exists i :: 0 <= i < |t.rows| && Stamp(t.rows[i], k, now) != t.rows[i] && Tells(t.matches, t.rows[i], k, n)
  {
    NotesAre(t.matches, t.rows, k, now);
    assert Remind(t, k, now).notes[|t.notes|..] == Notes(t.matches, t.rows, k, now);
  }

  class Services {
    const matches: map<Id, Pair>
    var rows: seq<Booking>
    var notes: seq<Notification>

    constructor (matches: map<Id, Pair>)
      ensures Tables() == Table(matches, [], [])
    {
      this.matches := matches;
      rows, notes := [], [];
    }

    ghost function Tables(): Table
      reads this
    {
      Table(matches, rows, notes)
    }

    method Propose(m: Id, user: Id, restaurant: string, scheduledAt: int, now: int) returns (r: Result<nat>)
      modifies this`rows
      ensures r == Err(NotMember) <==> !IsMember(matches, m, user)
      ensures r == Err(NotMember) <==> m !in matches || user !in {matches[m].a, matches[m].b}
      ensures IsMember(matches, m, user) && ValidateProposal(restaurant, scheduledAt, now).Some? ==>
        r == Err(ValidateProposal(restaurant, scheduledAt, now).value)
      ensures r.Ok? <==> IsMember(matches, m, user) && ValidateProposal(restaurant, scheduledAt, now).None?
      ensures rows == if r.Ok? then PutProposal(old(rows), m, user, restaurant, scheduledAt, now) else old(rows)
      ensures r.Ok? ==> r.value == |rows| - 1 == |old(rows)|
      ensures r == Err(NoVenue) <==> IsMember(matches, m, user) && restaurant == ""
      ensures r == Err(PastSchedule) <==> IsMember(matches, m, user) && restaurant != "" && scheduledAt <= now
      ensures r.Ok? ==>
        && rows[r.value] == Booking(m, user, restaurant, scheduledAt, Proposed, now, None, None)
        && (forall i :: 0 <= i < |old(rows)| ==>
              rows[i] == if old(rows)[i].matchID == m && old(rows)[i].status != Cancelled
                         then old(rows)[i].(status := Cancelled, updatedAt := now) else old(rows)[i])
    {
      if !IsMember(matches, m, user) {
        return Err(NotMember);
      }
      var invalid := ValidateProposal(restaurant, scheduledAt, now);
      if invalid.Some? {
        return Err(invalid.value);
      }
      rows := CancelLive(rows, m, now);
      rows := rows + [NewBooking(m, user, restaurant, scheduledAt, now)];
      return Ok(|rows| - 1);
    }

    /** The newest row of the match with the wanted liveness, as ORDER BY created_at DESC LIMIT 1. */
    method Newest(m: Id, onlyProposed: bool) returns (found: Option<nat>)
      ensures found.Some? ==> IsNewest(rows, m, onlyProposed, found.value)
      ensures found.None? ==> forall j :: 0 <= j < |rows| ==> !Wanted(rows[j], m, onlyProposed)
      ensures found.Some? ==>
        && rows[found.value].matchID == m && rows[found.value].status in {Proposed, Confirmed}
        && (onlyProposed ==> rows[found.value].status == Proposed)
      ensures forall j :: 0 <= j < |rows| && (found.Some? ==> j > found.value) && rows[j].matchID == m ==>
        rows[j].status == Cancelled || (onlyProposed && rows[j].status == Confirmed)
    {
      var i := |rows|;
      while i > 0
        invariant 0 <= i <= |rows|
        invariant forall j :: i <= j < |rows| ==> !Wanted(rows[j], m, onlyProposed)
      {
        i := i - 1;
        if Wanted(rows[i], m, onlyProposed) {
          return Some(i);
        }
      }
      return None;
    }

    /** A whole confirmation with nothing in between; an update the index refuses is a Conflict. */
    method Confirm(m: Id, user: Id, now: int) returns (r: Result<nat>)
      modifies this`rows
      ensures r.Ok? ==>
        && IsMember(matches, m, user) && IsNewest(old(rows), m, true, r.value)
        && old(rows)[r.value].proposedBy != user
        && MayBeLive(old(rows), r.value)
        && rows == PutConfirmed(old(rows), r.value, now)
        && old(rows)[r.value].matchID == m && old(rows)[r.value].status == Proposed
        && rows == old(rows)[r.value := old(rows)[r.value].(status := Confirmed, updatedAt := now)]
      ensures r == Err(Conflict) ==>
        exists i, j :: 0 <= i < |rows| && 0 <= j < |rows| && i != j && rows[i].matchID == rows[j].matchID == m
          && rows[i].status == Proposed && rows[j].status != Cancelled
      ensures r.Err? ==> rows == old(rows)
      ensures r == Err(NotMember) <==> !IsMember(matches, m, user)
      ensures r == Err(NotMember) <==> m !in matches || user !in {matches[m].a, matches[m].b}
      ensures r == Err(NoBooking) <==>
        IsMember(matches, m, user) && forall i :: 0 <= i < |rows| ==> !Wanted(old(rows)[i], m, true)
      ensures forall i: nat :: IsMember(matches, m, user) && IsNewest(old(rows), m, true, i) ==>
        && (r == Err(ConfirmOwn) <==> old(rows)[i].proposedBy == user)
        && (r == Err(Conflict) <==> old(rows)[i].proposedBy != user && !MayBeLive(old(rows), i))
        && (r == Ok(i) <==> old(rows)[i].proposedBy != user && MayBeLive(old(rows), i))
    {
      if !IsMember(matches, m, user) {
        return Err(NotMember);
      }
      var found := Newest(m, true);
      if found.None? {
        return Err(NoBooking);
      }
      var i := found.value;
      if rows[i].proposedBy == user {
        return Err(ConfirmOwn);
      }
      if exists j :: 0 <= j < |rows| && j != i && LiveFor(rows[j], rows[i].matchID) {
        return Err(Conflict);
      }
      rows := rows[i := rows[i].(status := Confirmed, updatedAt := now)];
      return Ok(i);
    }

    method CancelBooking(m: Id, user: Id, now: int) returns (r: Result<nat>)
      modifies this`rows
      ensures r.Ok? ==>
        && IsMember(matches, m, user) && IsNewest(old(rows), m, false, r.value)
        && rows == old(rows)[r.value := Cancel(old(rows)[r.value], now)]
        && old(rows)[r.value].matchID == m && old(rows)[r.value].status in {Proposed, Confirmed}
        && rows == old(rows)[r.value := old(rows)[r.value].(status := Cancelled, updatedAt := now)]
      ensures r.Err? ==> rows == old(rows)
      ensures r == Err(NotMember) <==> !IsMember(matches, m, user)
      ensures r == Err(NotMember) <==> m !in matches || user !in {matches[m].a, matches[m].b}
      ensures r == Err(NoBooking) <==>
        IsMember(matches, m, user) && forall i :: 0 <= i < |rows| ==> !LiveFor(old(rows)[i], m)
      ensures forall i: nat :: IsMember(matches, m, user) && IsNewest(old(rows), m, false, i) ==> r == Ok(i)
    {
      if !IsMember(matches, m, user) {
        return Err(NotMember);
      }
      var found := Newest(m, false);
      if found.None? {
        return Err(NoBooking);
      }
      rows := rows[found.value := Cancel(rows[found.value], now)];
      return Ok(found.value);
    }

    /** Both statements at one moment; the result counts the notifications created. */
    method RunDue(now: int) returns (sent: nat)
      modifies this
      ensures Tables() == Remind(Remind(old(Tables()), Day, now), Hours, now)
      ensures sent == |notes| - |old(notes)|
    {
      var before := |notes|;
      notes := notes + Notes(matches, rows, Day, now);
      rows := StampAll(rows, Day, now);
      notes := notes + Notes(matches, rows, Hours, now);
      rows := StampAll(rows, Hours, now);
      sent := |notes| - before;
    }
  }
}
