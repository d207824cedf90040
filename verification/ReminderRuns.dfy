/** What the reminders of anmates-api/services/reminders.go promise over every run of BookingRuns. */
module ReminderRuns {
  import opened Bookings
  import opened BookingRuns

  // ---- Notifications and stamps ------------------------------------------------------------

  ghost function Stamped(rows: seq<Booking>, k: Kind): nat {
    if rows == [] then 0
    else Stamped(rows[..|rows| - 1], k) + if Reminded(rows[|rows| - 1], k).Some? then 1 else 0
  }

  ghost function OfKind(notes: seq<Notification>, k: Kind): nat {
    if notes == [] then 0
    else OfKind(notes[..|notes| - 1], k) + if notes[|notes| - 1].kind == k then 1 else 0
  }

  ghost function Claimed(rows: seq<Booking>, k: Kind, now: int): nat {
    if rows == [] then 0
    else Claimed(rows[..|rows| - 1], k, now) + if Due(rows[|rows| - 1], k, now) then 1 else 0
  }

  lemma {:induction false} OfKindOfSum(s: seq<Notification>, t: seq<Notification>, k: Kind)
    ensures OfKind(s + t, k) == OfKind(s, k) + OfKind(t, k)
  {
    if t == [] {
      assert s + t == s;
    } else {
      assert (s + t)[..|s + t| - 1] == s + t[..|t| - 1];
      OfKindOfSum(s, t[..|t| - 1], k);
    }
  }

  ghost predicate MatchesKnown(t: Table) { forall i :: 0 <= i < |t.rows| ==> t.rows[i].matchID in t.matches }

  lemma {:induction false} NotesCount(matches: map<Id, Pair>, rows: seq<Booking>, k: Kind, l: Kind, now: int)
    requires MatchesKnown(Table(matches, rows, []))
    ensures OfKind(Notes(matches, rows, k, now), l) == if l == k then 2 * Claimed(rows, k, now) else 0
  {
    if rows != [] {
      var b := rows[|rows| - 1];
      NotesCount(matches, rows[..|rows| - 1], k, l, now);
      assert b.matchID in matches;
      var p := matches[b.matchID];
      var x, y := Notification(p.a, k, b.matchID, p.b), Notification(p.b, k, b.matchID, p.a);
      OfKindOfSum(Notes(matches, rows[..|rows| - 1], k, now), if Due(b, k, now) then [x, y] else [], l);
      assert [x, y][..1] == [x] && OfKind([x], l) == OfKind([], l) + if k == l then 1 else 0;
    }
  }

  lemma {:induction false} StampAllCount(rows: seq<Booking>, k: Kind, l: Kind, now: int)
    ensures Stamped(StampAll(rows, k, now), l) == Stamped(rows, l) + if l == k then Claimed(rows, k, now) else 0
  {
    if rows != [] {
      StampAllCount(rows[..|rows| - 1], k, l, now);
      var after := StampAll(rows, k, now);
      assert after[..|after| - 1] == StampAll(rows[..|rows| - 1], k, now);
    }
  }

  /** Rows that keep their stamps, and new rows without one, do not change the count. */
  lemma {:induction false} SameStamps(rows: seq<Booking>, after: seq<Booking>, k: Kind)
    requires |rows| <= |after|
    requires forall i :: 0 <= i < |rows| ==> Reminded(after[i], k) == Reminded(rows[i], k)
    requires forall i :: |rows| <= i < |after| ==> Reminded(after[i], k).None?
    ensures Stamped(after, k) == Stamped(rows, k)
    decreases |after|
  {
    if |rows| < |after| {
      SameStamps(rows, after[..|after| - 1], k);
    } else if rows != [] {
      SameStamps(rows[..|rows| - 1], after[..|after| - 1], k);
    }
  }

  lemma OnlyRemindersStamp(w: World, e: Event, k: Kind)
    requires Enabled(w, e) && !e.RunDue?
    ensures Stamped(Step(w, e).t.rows, k) == Stamped(w.t.rows, k)
  {
    SameStamps(w.t.rows, Step(w, e).t.rows, k);
  }

  ghost predicate Balanced(w: World) {
    forall k :: OfKind(w.t.notes, k) == 2 * Stamped(w.t.rows, k)
  }

  lemma StepBalances(w: World, e: Event)
    requires Inv(w) && Balanced(w) && Enabled(w, e)
    ensures Balanced(Step(w, e))
  {
    assert MatchesKnown(w.t) by {
      forall i: nat | i < |w.t.rows|
        ensures w.t.rows[i].matchID in w.t.matches
      {
        assert RowOk(w, i);
      }
    }
    forall l
      ensures OfKind(Step(w, e).t.notes, l) == 2 * Stamped(Step(w, e).t.rows, l)
    {
      assert OfKind(w.t.notes, l) == 2 * Stamped(w.t.rows, l);
      if e.RunDue? {
        assert MatchesKnown(Table(w.t.matches, w.t.rows, []));
        NotesCount(w.t.matches, w.t.rows, e.k, l, w.now);
        StampAllCount(w.t.rows, e.k, l, w.now);
        OfKindOfSum(w.t.notes, Notes(w.t.matches, w.t.rows, e.k, w.now), l);
      } else {
        OnlyRemindersStamp(w, e, l);
      }
    }
  }

  lemma {:induction false} RunBalances(w: World, es: seq<Event>, w': World)
    requires Inv(w) && Balanced(w) && Runs(w, es, w')
    ensures Balanced(w')
    decreases |es|
  {
    if es != [] {
      StepKeeps(w, es[0]);
      StepBalances(w, es[0]);
      RunBalances(Step(w, es[0]), es[1..], w');
    }
  }

  /** The notifications of each kind number exactly twice the bookings stamped for it. */
  lemma TwoNotificationsPerReminder(w: World, es: seq<Event>, w': World, k: Kind)
    requires Start(w) && Runs(w, es, w')
    ensures OfKind(w'.t.notes, k) == 2 * Stamped(w'.t.rows, k)
  {
    RunBalances(w, es, w');
  }

  /** How many times along a run booking i is claimed for a reminder of kind k. */
  ghost function Claims(w: World, es: seq<Event>, i: nat, k: Kind): nat
    decreases |es|
  {
    if es == [] || !Enabled(w, es[0]) then 0
    else
      Claims(Step(w, es[0]), es[1..], i, k) +
      if es[0] == RunDue(k) && i < |w.t.rows| && Due(w.t.rows[i], k, w.now) then 1 else 0
  }

  ghost function HasStamp(w: World, i: nat, k: Kind): nat {
    if i < |w.t.rows| && Reminded(w.t.rows[i], k).Some? then 1 else 0
  }

  /** A booking is claimed for a reminder of a kind at most once, and exactly once if it ends up
      stamped, however many replicas run and whatever else happens to it. */
  lemma {:induction false} ClaimedAtMostOnce(w: World, es: seq<Event>, w': World, i: nat, k: Kind)
    requires Runs(w, es, w')
    ensures HasStamp(w', i, k) == HasStamp(w, i, k) + Claims(w, es, i, k) <= 1
    decreases |es|
  {
    if es != [] {
      ClaimedAtMostOnce(Step(w, es[0]), es[1..], w', i, k);
      ClaimStamps(w, es[0], i, k);
    }
  }

  lemma ClaimStamps(w: World, e: Event, i: nat, k: Kind)
    requires Enabled(w, e)
    ensures HasStamp(Step(w, e), i, k) ==
      HasStamp(w, i, k) + if e == RunDue(k) && i < |w.t.rows| && Due(w.t.rows[i], k, w.now) then 1 else 0
  {
  }

  // ---- The reminder arrives ----------------------------------------------------------------

  /** The booking stands, with the notice its reminder asks for. */
  ghost predicate Kept(w: World, i: nat, k: Kind) {
    && i < |w.t.rows| && w.t.rows[i].status == Confirmed
    && (k.Day? ==> w.t.rows[i].updatedAt <= w.t.rows[i].scheduledAt - 20 * HOUR)
  }

  /** At every moment of the run the booking is kept and the statement for k last ran at most `gap`
      ago, the last time before the run being `last`. */
  ghost predicate KeptAndTicked(w: World, es: seq<Event>, i: nat, k: Kind, last: int, gap: int)
    decreases |es|
  {
    && Kept(w, i, k) && w.now <= last + gap
    && (es != [] && Enabled(w, es[0]) ==>
          KeptAndTicked(Step(w, es[0]), es[1..], i, k, if es[0] == RunDue(k) then w.now else last, gap))
  }

  lemma TickInWindowReminds(w: World, e: Event, i: nat, k: Kind)
    requires Enabled(w, e) && Kept(w, i, k)
    ensures i < |Step(w, e).t.rows| && Step(w, e).t.rows[i].scheduledAt == w.t.rows[i].scheduledAt
    ensures Reminded(w.t.rows[i], k).Some? ==> Reminded(Step(w, e).t.rows[i], k).Some?
    ensures (e == RunDue(k) && Opens(w.t.rows[i], k) <= w.now < Closes(w.t.rows[i], k) ==>
               Reminded(Step(w, e).t.rows[i], k).Some?)
  {
  }

  /** A booking that stays confirmed gets its reminder before the window closes, if ticks come at
      most `gap` apart, `gap` is no longer than the window, and the next tick is bound to come
      before it closes. */
  lemma {:induction false} ReminderArrives(
      w: World, es: seq<Event>, w': World, i: nat, k: Kind, last: int, gap: int)
    requires Runs(w, es, w') && KeptAndTicked(w, es, i, k, last, gap)
    requires 0 <= gap <= Closes(w.t.rows[i], k) - Opens(w.t.rows[i], k)
    requires last + gap < Closes(w.t.rows[i], k) || Reminded(w.t.rows[i], k).Some?
    requires w'.now >= Closes(w.t.rows[i], k)
    ensures i < |w'.t.rows| && Reminded(w'.t.rows[i], k).Some?
    ensures w'.t.rows[i].scheduledAt == w.t.rows[i].scheduledAt
    decreases |es|
  {
    if es != [] {
      TickInWindowReminds(w, es[0], i, k);
      hide Enabled, Step, Reminded;
      ReminderArrives(Step(w, es[0]), es[1..], w', i, k, if es[0] == RunDue(k) then w.now else last, gap);
    }
  }

  /** The two-hour reminder: ticks that have started before that point and come at most two hours
      apart remind a booking that is confirmed by then and kept, before its time. */
  lemma TwoHourReminderArrives(
      start: World, past: seq<Event>, w: World, es: seq<Event>, w': World, i: nat, last: int)
    requires Start(start) && Runs(start, past, w) && Runs(w, es, w') && KeptAndTicked(w, es, i, Hours, last, 2 * HOUR)
    requires last < w.t.rows[i].scheduledAt - 2 * HOUR && w'.now >= w.t.rows[i].scheduledAt
    ensures i < |w'.t.rows| && Reminded(w'.t.rows[i], Hours).Some?
    ensures w.t.rows[i].scheduledAt - 2 * HOUR <= Reminded(w'.t.rows[i], Hours).value < w.t.rows[i].scheduledAt
  {
    ReminderArrives(w, es, w', i, Hours, last, 2 * HOUR);
    RunKeeps(start, past, w);
    RunKeeps(w, es, w');
    assert RowOk(w', i);
  }
}
