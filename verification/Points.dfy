/** The match's points total (anmates-api/services/chat.go) and the trigger decided from it
    (anmates-api/services/concierge.go). Times are in seconds in the database's time zone. */
module Points {
  import opened Wrappers

  type Id = nat

  const STREAK_BONUS: nat := 5

  function Day(t: int): int { t / 86400 }

  datatype Progress = Progress(points: nat, lastActivity: Option<int>)

  const NEW_MATCH: Progress := Progress(0, None)

  /** One message: a point, and the bonus if the last activity was yesterday. */
  function Increment(p: Progress, now: int): Progress {
    var bonus := if p.lastActivity.Some? && Day(p.lastActivity.value) == Day(now) - 1 then STREAK_BONUS else 0;
    Progress(p.points + 1 + bonus, Some(now))
  }

  class ChatService {
    var progress: map<Id, Progress>

    constructor ()
      ensures progress == map[]
    {
      progress := map[];
    }

    /** (0, 0) when the match has no row. */
    method IncrementPoints(matchID: Id, now: int) returns (before: nat, after: nat)
      modifies this
      ensures matchID !in old(progress) ==> progress == old(progress) && before == after == 0
      ensures matchID in old(progress) ==>
        && progress == old(progress)[matchID := Increment(old(progress[matchID]), now)]
        && progress[matchID] == Progress(after, Some(now)) && before == old(progress[matchID].points)
        && (var last := old(progress[matchID].lastActivity);
            after == before + 1 + if last.Some? && last.value / 86400 == now / 86400 - 1 then 5 else 0)
    {
      if matchID !in progress {
        return 0, 0;
      }
      var p := progress[matchID];
      before := p.points;
      after := before + 1;
      if p.lastActivity.Some? && Day(p.lastActivity.value) == Day(now) - 1 {
        after := after + STREAK_BONUS;
      }
      progress := progress[matchID := Progress(after, Some(now))];
    }
  }

  /** The row after a history of messages at the given times, in order. */
  function Total(start: Progress, history: seq<int>): Progress
    decreases |history|
  {
    if history == [] then start
    else Increment(Total(start, history[..|history| - 1]), history[|history| - 1])
  }

  ghost predicate ClockNeverGoesBack(history: seq<int>) {
    forall i, j :: 0 <= i < j < |history| ==> history[i] <= history[j]
  }

  function ActiveDays(history: seq<int>): set<int> { set i | 0 <= i < |history| :: Day(history[i]) }

  predicate ContinuesStreak(days: set<int>, d: int) { d in days && d - 1 in days }

  /** Active days whose previous day was also active. */
  function StreakDays(days: set<int>): set<int> { set d | d in days && ContinuesStreak(days, d) }

  /** One more day at the end extends the streaks by that day or not at all. */
  lemma StreakStep(days: set<int>, last: int, today: int)
    requires last in days && last <= today && forall d :: d in days ==> d <= last
    ensures StreakDays(days + {today}) == StreakDays(days) + if last == today - 1 then {today} else {}
    ensures last == today - 1 ==> today !in StreakDays(days)
  {
  }

  lemma DaysGrow(history: seq<int>)
    requires history != []
    ensures ActiveDays(history) == ActiveDays(history[..|history| - 1]) + {Day(history[|history| - 1])}
  {
  }

  lemma LastDayIsLatest(history: seq<int>)
    requires ClockNeverGoesBack(history) && history != []
    ensures Day(history[|history| - 1]) in ActiveDays(history)
    ensures forall d :: d in ActiveDays(history) ==> d <= Day(history[|history| - 1])
  {
  }

  lemma StreaksGrow(history: seq<int>)
    requires ClockNeverGoesBack(history) && |history| > 1
    ensures var n := |history| - 1;
      |StreakDays(ActiveDays(history))| ==
        |StreakDays(ActiveDays(history[..n]))| + if Day(history[n - 1]) == Day(history[n]) - 1 then 1 else 0
  {
    var n := |history| - 1;
    DaysGrow(history);
    LastDayIsLatest(history[..n]);
    assert history[n - 1] <= history[n];
    StreakStep(ActiveDays(history[..n]), Day(history[n - 1]), Day(history[n]));
  }

  /** The closed form: one point per message and five per active day that continues a streak. */
  lemma {:induction false} PointsCountMessagesAndStreaks(history: seq<int>)
    requires ClockNeverGoesBack(history)
    ensures Total(NEW_MATCH, history).points == |history| + 5 * |StreakDays(ActiveDays(history))|
    ensures history != [] ==> Total(NEW_MATCH, history).lastActivity == Some(history[|history| - 1])
    decreases |history|
  {
    if |history| <= 1 {
      assert ActiveDays(history) == if history == [] then {} else {Day(history[0])};
      assert forall d :: !ContinuesStreak(ActiveDays(history), d);
      assert StreakDays(ActiveDays(history)) == {};
    } else {
      PointsCountMessagesAndStreaks(history[..|history| - 1]);
      StreaksGrow(history);
    }
  }

  // ---- The trigger -------------------------------------------------------------------------

  datatype Action = Nothing | Warm | Fire

  predicate CrossedThreshold(before: nat, after: nat, threshold: int) {
    before < threshold && after >= threshold
  }

  function DecideAction(before: nat, after: nat, warm: int, trigger: int): Action {
    if CrossedThreshold(before, after, trigger) then Fire
    else if warm > 0 && warm < trigger && CrossedThreshold(before, after, warm) && after < trigger then Warm
    else Nothing
  }

  /** What the k-th message of a history decides. */
  function ActionAt(start: Progress, history: seq<int>, k: nat, warm: int, trigger: int): Action
    requires k < |history|
  {
    DecideAction(Total(start, history[..k]).points, Total(start, history[..k + 1]).points, warm, trigger)
  }

  lemma {:induction false} TotalGrows(start: Progress, history: seq<int>, i: nat, j: nat)
    requires i <= j <= |history|
    ensures Total(start, history[..j]).points >= Total(start, history[..i]).points + (j - i)
    decreases j
  {
    if i < j {
      assert history[..j][..j - 1] == history[..j - 1];
      TotalGrows(start, history, i, j - 1);
    }
  }

  lemma StepIsOneOrSix(start: Progress, history: seq<int>, k: nat)
    requires k < |history|
    ensures var p := Total(start, history[..k]).points;
      Total(start, history[..k + 1]).points in {p + 1, p + 1 + STREAK_BONUS}
  {
    assert history[..k + 1][..k] == history[..k];
  }

  /** A total that starts below a threshold and reaches it crosses it at some message. */
  lemma {:induction false} SomeMessageCrosses(start: Progress, history: seq<int>, n: nat, threshold: int) returns (k: nat)
    requires n <= |history| && start.points < threshold <= Total(start, history[..n]).points
    ensures k < n
    ensures CrossedThreshold(Total(start, history[..k]).points, Total(start, history[..k + 1]).points, threshold)
    decreases n
  {
    if Total(start, history[..n - 1]).points < threshold {
      k := n - 1;
    } else {
      k := SomeMessageCrosses(start, history, n - 1, threshold);
    }
  }

  /** Exactly one message fires if the total starts below the trigger and reaches it, and at most
      one warms; which message fires or warms is said by the totals around it. */
  lemma FiresExactlyOnce(start: Progress, history: seq<int>, warm: int, trigger: int)
    ensures forall k :: 0 <= k < |history| ==>
      (var before, after := Total(start, history[..k]).points, Total(start, history[..k + 1]).points;
       && (ActionAt(start, history, k, warm, trigger) == Fire <==> before < trigger <= after)
       && (ActionAt(start, history, k, warm, trigger) == Warm <==>
             0 < warm < trigger && before < warm <= after < trigger))
    ensures start.points < trigger <= Total(start, history).points ==>
      exists k :: 0 <= k < |history| && ActionAt(start, history, k, warm, trigger) == Fire
    ensures forall i, j :: 0 <= i < j < |history| ==>
      (var a := ActionAt(start, history, i, warm, trigger);
       a != Nothing ==> a != ActionAt(start, history, j, warm, trigger))
  {
    if start.points < trigger <= Total(start, history).points {
      assert history[..|history|] == history;
      var k := SomeMessageCrosses(start, history, |history|, trigger);
      assert ActionAt(start, history, k, warm, trigger) == Fire;
    }
    forall i, j | 0 <= i < j < |history|
      ensures var a := ActionAt(start, history, i, warm, trigger);
        a != Nothing ==> a != ActionAt(start, history, j, warm, trigger)
    {
      TotalGrows(start, history, i + 1, j);
    }
  }

  ghost predicate WarmedBefore(start: Progress, history: seq<int>, k: nat, warm: int, trigger: int)
    requires k <= |history|
  {
    exists j :: 0 <= j < k && ActionAt(start, history, j, warm, trigger) == Warm
  }

  /** With the thresholds at least one full step apart, the fire is always preceded by a warm. */
  lemma WarmPrecedesFire(start: Progress, history: seq<int>, k: nat, warm: int, trigger: int)
    requires 0 < warm && warm + 1 + STREAK_BONUS <= trigger && start.points < warm
    requires k < |history| && ActionAt(start, history, k, warm, trigger) == Fire
    ensures WarmedBefore(start, history, k, warm, trigger)
  {
    StepIsOneOrSix(start, history, k);
    var j := SomeMessageCrosses(start, history, k, warm);
    TotalGrows(start, history, j + 1, k);
    assert ActionAt(start, history, j, warm, trigger) == Warm;
  }

  ghost predicate WarmAlwaysFirst(warm: int, trigger: int) {
    forall history, k ::
      ClockNeverGoesBack(history) && 0 <= k < |history| && ActionAt(NEW_MATCH, history, k, warm, trigger) == Fire ==>
        WarmedBefore(NEW_MATCH, history, k, warm, trigger)
  }

  lemma {:induction false} QuietDay(n: nat)
    ensures Total(NEW_MATCH, seq(n, _ => 0)).points == n
    ensures n > 0 ==> Total(NEW_MATCH, seq(n, _ => 0)).lastActivity == Some(0)
  {
    if n > 0 {
      QuietDay(n - 1);
      assert seq(n, _ => 0)[..n - 1] == seq(n - 1, _ => 0);
    }
  }

  /** For a new match, the exact condition on the two thresholds under which no history can fire
      without having warmed first. */
  lemma WarmAlwaysFirstIff(warm: int, trigger: int)
    requires 0 < warm < trigger
    ensures WarmAlwaysFirst(warm, trigger) <==> warm == 1 || trigger - warm >= 1 + STREAK_BONUS
  {
    if warm == 1 || trigger - warm >= 1 + STREAK_BONUS {
      forall history, k | ClockNeverGoesBack(history) && 0 <= k < |history| &&
                          ActionAt(NEW_MATCH, history, k, warm, trigger) == Fire
        ensures WarmedBefore(NEW_MATCH, history, k, warm, trigger)
      {
        if warm == 1 {
          FirstMessageWarms(history, k, trigger);
        } else {
          WarmPrecedesFire(NEW_MATCH, history, k, warm, trigger);
        }
      }
    } else {
      var n := warm - 1;
      var history := seq(n, _ => 0) + [86400];
      QuietDay(n);
      assert history[..n] == seq(n, _ => 0) && history[..n + 1] == history;
      assert ActionAt(NEW_MATCH, history, n, warm, trigger) == Fire;
      forall j | 0 <= j < n
        ensures ActionAt(NEW_MATCH, history, j, warm, trigger) != Warm
      {
        TotalGrows(NEW_MATCH, history, j + 1, n);
      }
      assert !WarmedBefore(NEW_MATCH, history, n, warm, trigger);
    }
  }

  lemma FirstMessageWarms(history: seq<int>, k: nat, trigger: int)
    requires 1 < trigger && k < |history| && ActionAt(NEW_MATCH, history, k, 1, trigger) == Fire
    ensures WarmedBefore(NEW_MATCH, history, k, 1, trigger)
  {
    assert history[..0] == [] && history[..1][..0] == [];
    assert k > 0;
    assert ActionAt(NEW_MATCH, history, 0, 1, trigger) == Warm;
  }
}
