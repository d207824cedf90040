/** Migrate of anmates-api/db/migrate.go: one instance alone, and any number of instances that start,
    lose their lock session, fail, crash and restart at any step. */
module Migrate {
  import opened Wrappers
  import opened Ordering

  type Id = nat

  datatype Entry = Entry(name: string, isDir: bool)

  predicate IsMigration(e: Entry) { !e.isDir && |e.name| >= 4 && e.name[|e.name| - 4..] == ".sql" }

  function MigrationNames(entries: seq<Entry>): seq<string> {
    if entries == [] then []
    else
      MigrationNames(entries[..|entries| - 1]) +
      if IsMigration(entries[|entries| - 1]) then [entries[|entries| - 1].name] else []
  }

  /** The files in the order they are applied. */
  function Plan(entries: seq<Entry>): seq<string> { Sort(Before, MigrationNames(entries)) }

  ghost predicate UniqueNames(entries: seq<Entry>) {
    forall i, j :: 0 <= i < j < |entries| ==> entries[i].name != entries[j].name
  }

  lemma {:induction false} MigrationNamesDistinct(entries: seq<Entry>)
    requires UniqueNames(entries)
    ensures Distinct(MigrationNames(entries))
    ensures forall x :: x in MigrationNames(entries) <==> exists e :: e in entries && IsMigration(e) && e.name == x
  {
    if entries != [] {
      var last := entries[|entries| - 1];
      MigrationNamesDistinct(entries[..|entries| - 1]);
      assert entries == entries[..|entries| - 1] + [last];
      assert last.name !in MigrationNames(entries[..|entries| - 1]);
    }
  }

  /** The plan lists every migration file once, in strictly ascending order. */
  lemma PlanAscends(entries: seq<Entry>)
    requires UniqueNames(entries)
    ensures Ascending(Before, Plan(entries)) && Distinct(Plan(entries))
    ensures forall x :: x in Plan(entries) <==> exists e :: e in entries && IsMigration(e) && e.name == x
    ensures forall e :: e in entries ==> (IsMigration(e) <==> !e.isDir && exists stem :: e.name == stem + ".sql")
  {
    MigrationNamesDistinct(entries);
    DistinctStringsSort(MigrationNames(entries));
    assert forall s :: !Before(s, s);
    forall e | e in entries
      ensures IsMigration(e) <==> !e.isDir && exists stem :: e.name == stem + ".sql"
    {
      SqlIff(e.name);
    }
  }

  lemma SqlIff(name: string)
    ensures |name| >= 4 && name[|name| - 4..] == ".sql" <==> exists stem :: name == stem + ".sql"
  {
    if |name| >= 4 && name[|name| - 4..] == ".sql" {
      assert name == name[..|name| - 4] + ".sql";
    }
  }

  // ---- One instance ------------------------------------------------------------------------

  /** The names not yet in the log, in order. */
  function Missing(names: seq<string>, log: seq<string>): seq<string> {
    if names == [] then []
    else Missing(names[..|names| - 1], log) + if names[|names| - 1] in log then [] else [names[|names| - 1]]
  }

  lemma {:induction false} MissingElements(names: seq<string>, log: seq<string>)
    ensures forall x :: x in Missing(names, log) <==> x in names && x !in log
  {
    if names != [] {
      MissingElements(names[..|names| - 1], log);
      assert names == names[..|names| - 1] + [names[|names| - 1]];
    }
  }

  lemma AppendAscends(front: seq<string>, x: string)
    requires Ascending(Before, front) && forall i :: 0 <= i < |front| ==> Before(front[i], x)
    ensures Ascending(Before, front + [x])
  {
    hide Before;
  }

  /** What is missing is in the plan's order, and what a call gets to apply is a first part of it. */
  lemma {:induction false} MissingInOrder(names: seq<string>, log: seq<string>)
    requires Ascending(Before, names)
    ensures Ascending(Before, Missing(names, log))
    ensures forall x :: x in Missing(names, log) <==> x in names && x !in log
  {
    MissingElements(names, log);
    if names != [] {
      var front, last := names[..|names| - 1], names[|names| - 1];
      MissingInOrder(front, log);
      hide Before;
      forall i | 0 <= i < |Missing(front, log)|
        ensures Before(Missing(front, log)[i], last)
      {
        assert Missing(front, log)[i] in front;
      }
      hide Ascending;
      AppendAscends(Missing(front, log), last);
    }
  }

  lemma UpToIs(s: seq<string>, n: nat)
    ensures UpTo(s, n) <= s && |UpTo(s, n)| == if n < |s| then n else |s|
  {
  }

  class Database {
    var log: seq<string>    // schema_migrations in commit order; each row with its file's effects

    var locked: bool        // whether some session holds the advisory lock

    constructor ()
      ensures log == [] && !locked
    {
      log, locked := [], false;
    }

    /** The whole call. `locks` says whether the advisory lock can be asked for at all, `creates`
        whether schema_migrations can be created. */
    method Migrate(entries: seq<Entry>, locks: bool, creates: bool, readable: nat, fails: nat) returns (ok: bool)
      requires UniqueNames(entries)
      modifies this
      ensures locked == old(locked)
      ensures ok <==>
        && locks && !old(locked) && creates
        && |Plan(entries)| <= readable && |Missing(Plan(entries), old(log))| <= fails
      ensures log == old(log) +
        if locks && !old(locked) && creates then UpTo(Missing(UpTo(Plan(entries), readable), old(log)), fails) else []
    {
      if !locks || locked {
        return false;
      }
      locked := true;
      if !creates {
        locked := false;
        return false;
      }
      var names := [];
      for i := 0 to |entries|
        invariant names == MigrationNames(entries[..i])
        invariant log == old(log) && locked
      {
        assert entries[..i + 1][..i] == entries[..i];
        if IsMigration(entries[i]) {
          names := names + [entries[i].name];
        }
      }
      assert entries[..|entries|] == entries;
      names := Sort(Before, names);
      PlanAscends(entries);
      ok := ApplyAll(names, readable, fails);
      locked := false;
    }

    /** The loop after the lock is held. The query whether a name is applied, or reading its file,
        fails for name number `readable` (if the loop gets that far); transaction number `fails` of
        this call fails and is rolled back. */
    method ApplyAll(names: seq<string>, readable: nat, fails: nat) returns (ok: bool)
      requires Distinct(names)
      modifies this`log
      ensures ok <==> |names| <= readable && |Missing(names, old(log))| <= fails
      ensures log == old(log) + UpTo(Missing(UpTo(names, readable), old(log)), fails)
    {
      hide Distinct;
      ghost var before := log;
      var done := 0;
      for i := 0 to |names|
        invariant log == before + Missing(names[..i], before)
        invariant done == |Missing(names[..i], before)| <= fails && i <= readable
      {
        if i == readable {
          return false;
        }
        var name := names[i];
        MissingNext(names, i, before);
        if name !in log {
          if done == fails {
            StopsHere(names, i, before, readable);
            return false;
          }
          log := log + [name];
          done := done + 1;
        }
      }
      assert names[..|names|] == names;
      return true;
    }
  }

  function UpTo<T>(s: seq<T>, n: nat): seq<T> { if |s| <= n then s else s[..n] }

  /** The next name is missing: what is missing so far is a proper prefix of what is missing. */
  lemma StopsHere(names: seq<string>, i: nat, log: seq<string>, readable: nat)
    requires i < |names| && i < readable && Missing(names[..i + 1], log) == Missing(names[..i], log) + [names[i]]
    ensures (var n := |Missing(names[..i], log)|;
             && n < |Missing(names, log)|
             && UpTo(Missing(UpTo(names, readable), log), n) == Missing(names[..i], log))
  {
    MissingGrows(names, i + 1, log);
    var some := UpTo(names, readable);
    assert some[..i + 1] == names[..i + 1];
    MissingGrows(some, i + 1, log);
  }

  lemma MissingNext(names: seq<string>, i: nat, log: seq<string>)
    requires i < |names| && Distinct(names)
    ensures Missing(names[..i + 1], log) == Missing(names[..i], log) + if names[i] in log then [] else [names[i]]
    ensures names[i] in log + Missing(names[..i], log) <==> names[i] in log
  {
    MissingElements(names[..i], log);
    assert names[..i + 1][..i] == names[..i];
  }

  lemma {:induction false} MissingGrows(names: seq<string>, i: nat, log: seq<string>)
    requires i <= |names|
    ensures Missing(names[..i], log) <= Missing(names, log)
    decreases |names| - i
  {
    if i == |names| {
      assert names[..i] == names;
    } else {
      MissingGrows(names, i + 1, log);
      assert names[..i + 1][..i] == names[..i];
    }
  }

  // ---- Many instances ----------------------------------------------------------------------

  datatype Pc = Idle | Locked | Checking(i: nat) | Applying(i: nat) | Succeeded | Failed

  datatype World = World(log: seq<string>, lock: Option<Id>, pc: map<Id, Pc>)

  function PcOf(w: World, p: Id): Pc { if p in w.pc then w.pc[p] else Idle }

  datatype Event =
    | TryLock(p: Id)
    | CreateTable(p: Id)
    | Check(p: Id)
    | Commit(p: Id)
    | Finish(p: Id, unlocked: bool)
    | LoseLock(p: Id)                  // the connection holding the lock drops
    | Fail(p: Id, committed: bool)     // an error or a crash, possibly after the commit took effect
    | Restart(p: Id)

  ghost predicate Enabled(names: seq<string>, w: World, e: Event) {
    match e
    case TryLock(p) => PcOf(w, p).Idle?
    case CreateTable(p) => PcOf(w, p).Locked?
    case Check(p) => PcOf(w, p).Checking? && PcOf(w, p).i < |names|
    case Commit(p) => PcOf(w, p).Applying? && PcOf(w, p).i < |names|
    case Finish(p, _) => PcOf(w, p) == Checking(|names|)
    case LoseLock(p) => w.lock == Some(p)
    case Fail(p, _) => !PcOf(w, p).Succeeded? && !PcOf(w, p).Failed?
    case Restart(p) => PcOf(w, p).Succeeded? || PcOf(w, p).Failed?
  }

  function Freed(lock: Option<Id>, p: Id): Option<Id> { if lock == Some(p) then None else lock }

  /** One transaction: the file and its row, or neither if the row's primary key is taken. */
  function Record(log: seq<string>, name: string): seq<string> { if name in log then log else log + [name] }

  ghost function Step(names: seq<string>, w: World, e: Event): World
    requires Enabled(names, w, e)
  {
    match e
    case TryLock(p) =>
      if w.lock.None? then w.(lock := Some(p), pc := w.pc[p := Locked]) else w.(pc := w.pc[p := Failed])
    case CreateTable(p) => w.(pc := w.pc[p := Checking(0)])
    case Check(p) =>
      var i := PcOf(w, p).i;
      w.(pc := w.pc[p := if names[i] in w.log then Checking(i + 1) else Applying(i)])
    case Commit(p) =>
      var i := PcOf(w, p).i;
      w.(log := Record(w.log, names[i]), pc := w.pc[p := if names[i] in w.log then Failed else Checking(i + 1)],
         lock := if names[i] in w.log then Freed(w.lock, p) else w.lock)
    case Finish(p, unlocked) =>
      w.(lock := if unlocked then Freed(w.lock, p) else w.lock, pc := w.pc[p := Succeeded])
    case LoseLock(p) => w.(lock := None)
    case Fail(p, committed) =>
      World(if committed && PcOf(w, p).Applying? && PcOf(w, p).i < |names|
            then Record(w.log, names[PcOf(w, p).i]) else w.log,
            Freed(w.lock, p), w.pc[p := Failed])
    case Restart(p) => w.(lock := Freed(w.lock, p), pc := w.pc[p := Idle])
  }

  ghost predicate Runs(names: seq<string>, w: World, es: seq<Event>, w': World)
    decreases |es|
  {
    if es == [] then w == w'
    else Enabled(names, w, es[0]) && Runs(names, Step(names, w, es[0]), es[1..], w')
  }

  /** What an instance has seen committed stays committed. */
  ghost predicate PcOk(names: seq<string>, w: World, p: Id) {
    match PcOf(w, p)
    case Checking(i) => i <= |names| && AllIn(names[..i], w.log)
    case Applying(i) => i < |names| && AllIn(names[..i], w.log)
    case Succeeded => AllIn(names, w.log)
    case _ => true
  }

  ghost predicate AllIn(names: seq<string>, log: seq<string>) { forall x :: x in names ==> x in log }

  ghost predicate Inv(names: seq<string>, w: World) { Distinct(w.log) && forall p: Id :: PcOk(names, w, p) }

  lemma StepKeeps(names: seq<string>, w: World, e: Event)
    requires Inv(names, w) && Enabled(names, w, e)
    ensures Inv(names, Step(names, w, e))
  {
    var w' := Step(names, w, e);
    assert forall x :: x in w.log ==> x in w'.log;
    forall p: Id
      ensures PcOk(names, w', p)
    {
      assert PcOk(names, w, p);
      if p == e.p && (e.Check? || e.Commit?) {
        var i := PcOf(w, p).i;
        assert names[..i + 1] == names[..i] + [names[i]];
      } else if e == Finish(p, true) || e == Finish(p, false) {
        assert names[..|names|] == names;
      }
    }
  }

  lemma {:induction false} RunKeeps(names: seq<string>, w: World, es: seq<Event>, w': World)
    requires Inv(names, w) && Runs(names, w, es, w')
    ensures Inv(names, w')
    decreases |es|
  {
    if es != [] {
      StepKeeps(names, w, es[0]);
      RunKeeps(names, Step(names, w, es[0]), es[1..], w');
    }
  }

  /** The log only grows, and from a prefix of the plan to a longer prefix of it. */
  lemma {:induction false} StepKeepsPrefix(names: seq<string>, w: World, e: Event)
    requires Inv(names, w) && Enabled(names, w, e) && Distinct(names) && w.log <= names
    ensures w.log <= Step(names, w, e).log <= names
  {
    if PcOf(w, e.p).Applying? {
      var i := PcOf(w, e.p).i;
      assert PcOk(names, w, e.p);
      if names[i] !in w.log {
        assert i >= |w.log|;
        PrefixCovers(names, i, w.log);
      }
    }
  }

  lemma PrefixCovers(names: seq<string>, i: nat, log: seq<string>)
    requires Distinct(names) && log <= names && i < |names| && AllIn(names[..i], log)
    ensures i <= |log|
  {
    if i > 0 {
      assert names[..i][i - 1] in names[..i];
      AppliedBelow(names, i - 1, log);
    }
  }

  lemma AppliedBelow(names: seq<string>, k: nat, log: seq<string>)
    requires Distinct(names) && log <= names && k < |names| && names[k] in log
    ensures k < |log|
  {
  }

  lemma {:induction false} RunKeepsPrefix(names: seq<string>, w: World, es: seq<Event>, w': World)
    requires Inv(names, w) && Runs(names, w, es, w') && Distinct(names) && w.log <= names
    ensures w.log <= w'.log <= names
    decreases |es|
  {
    if es != [] {
      StepKeeps(names, w, es[0]);
      StepKeepsPrefix(names, w, es[0]);
      RunKeepsPrefix(names, Step(names, w, es[0]), es[1..], w');
    }
  }

  ghost predicate Start(w: World) { w.pc == map[] && w.lock.None? && Distinct(w.log) }

  /** In every run, even with locks lost: the log stays a prefix of the plan, each file is in it at
      most once, and an instance that reports success has the whole plan applied. */
  lemma LogIsPrefixOfPlan(entries: seq<Entry>, w: World, es: seq<Event>, w': World, p: Id)
    requires UniqueNames(entries) && Start(w) && w.log <= Plan(entries) && Runs(Plan(entries), w, es, w')
    ensures w.log <= w'.log <= Plan(entries) && Distinct(w'.log)
    ensures PcOf(w', p).Succeeded? ==> w'.log == Plan(entries)
  {
    var names := Plan(entries);
    PlanAscends(entries);
    RunKeeps(names, w, es, w');
    RunKeepsPrefix(names, w, es, w');
    assert PcOk(names, w', p);
    if PcOf(w', p).Succeeded? && names != [] {
      AppliedBelow(names, |names| - 1, w'.log);
    }
  }

  /** Whatever was applied before (say, by a release with other files): nothing is applied twice and
      success still means that every file of the plan is applied. */
  lemma SuccessMeansApplied(names: seq<string>, w: World, es: seq<Event>, w': World, p: Id)
    requires Start(w) && Runs(names, w, es, w')
    ensures Distinct(w'.log) && (PcOf(w', p).Succeeded? ==> forall x :: x in names ==> x in w'.log)
  {
    RunKeeps(names, w, es, w');
    assert PcOk(names, w', p);
  }

  // ---- What the lock adds ------------------------------------------------------------------

  predicate Working(w: World, p: Id) {
    PcOf(w, p).Locked? || PcOf(w, p).Checking? || PcOf(w, p).Applying?
  }

  ghost predicate Exclusive(names: seq<string>, w: World) {
    && (forall p: Id :: Working(w, p) ==> w.lock == Some(p))
    && (forall p: Id :: PcOf(w, p).Applying? && PcOf(w, p).i < |names| ==> names[PcOf(w, p).i] !in w.log)
  }

  lemma StepExclusive(names: seq<string>, w: World, e: Event)
    requires Exclusive(names, w) && Enabled(names, w, e) && !e.LoseLock?
    ensures Exclusive(names, Step(names, w, e))
  {
    var w' := Step(names, w, e);
    forall p: Id | PcOf(w', p).Applying? && PcOf(w', p).i < |names|
      ensures names[PcOf(w', p).i] !in w'.log
    {
      if p == e.p {
        assert e.Check?;
      } else {
        assert PcOf(w', p) == PcOf(w, p) && Working(w, p);
        assert !Working(w, e.p);
        assert w'.log == w.log;
      }
    }
  }

  lemma {:induction false} RunStaysExclusive(names: seq<string>, w: World, es: seq<Event>, w': World)
    requires Exclusive(names, w) && Runs(names, w, es, w') && forall e :: e in es ==> !e.LoseLock?
    ensures Exclusive(names, w')
    decreases |es|
  {
    if es != [] {
      StepExclusive(names, w, es[0]);
      RunStaysExclusive(names, Step(names, w, es[0]), es[1..], w');
    }
  }

  /** While no lock session is lost, at most one instance is at work, and no transaction runs a file
      that turns out to be applied already. */
  lemma OneInstanceWorks(names: seq<string>, w: World, es: seq<Event>, w': World, p: Id, q: Id)
    requires Start(w) && Runs(names, w, es, w') && forall e :: e in es ==> !e.LoseLock?
    ensures Working(w', p) && Working(w', q) ==> p == q
    ensures PcOf(w', p).Applying? && PcOf(w', p).i < |names| ==> names[PcOf(w', p).i] !in w'.log
  {
    RunStaysExclusive(names, w, es, w');
  }

  lemma Prepend(names: seq<string>, w: World, e: Event, es: seq<Event>, w': World) returns (all: seq<Event>)
    requires Enabled(names, w, e) && Runs(names, Step(names, w, e), es, w')
    ensures Runs(names, w, all, w')
  {
    all := [e] + es;
    assert all[1..] == es;
  }

  /** An instance that is at work can go through with it, undisturbed. */
  lemma {:induction false} GoesThrough(names: seq<string>, w: World, p: Id) returns (es: seq<Event>, w': World)
    requires Inv(names, w) && PcOf(w, p).Checking?
    ensures Runs(names, w, es, w') && PcOf(w', p).Succeeded? && w.log <= w'.log
    decreases |names| - PcOf(w, p).i
  {
    var i := PcOf(w, p).i;
    assert PcOk(names, w, p);
    if i == |names| {
      w' := Step(names, w, Finish(p, true));
      es := Prepend(names, w, Finish(p, true), [], w');
    } else {
      var w1 := Step(names, w, Check(p));
      StepKeeps(names, w, Check(p));
      if names[i] in w.log {
        es, w' := GoesThrough(names, w1, p);
      } else {
        var w2 := Step(names, w1, Commit(p));
        StepKeeps(names, w1, Commit(p));
        es, w' := GoesThrough(names, w2, p);
        es := Prepend(names, w1, Commit(p), es, w');
      }
      es := Prepend(names, w, Check(p), es, w');
    }
  }

  /** Whatever was applied before: an instance that starts while the lock is free can come to success,
      with every file of the plan applied. */
  lemma InstanceCanFinish(names: seq<string>, w: World, p: Id) returns (es: seq<Event>, w': World)
    requires Start(w)
    ensures Runs(names, w, es, w') && PcOf(w', p).Succeeded? && forall x :: x in names ==> x in w'.log
  {
    var w1 := Step(names, w, TryLock(p));
    var w2 := Step(names, w1, CreateTable(p));
    StepKeeps(names, w, TryLock(p));
    StepKeeps(names, w1, CreateTable(p));
    es, w' := GoesThrough(names, w2, p);
    es := Prepend(names, w1, CreateTable(p), es, w');
    es := Prepend(names, w, TryLock(p), es, w');
    SuccessMeansApplied(names, w, es, w', p);
  }

  // ---- Failures do not block, and what a lost lock does ------------------------------------

  /** When each step can happen: anybody can start when idle, fail while at it, and start again. */
  lemma GuardsAre(names: seq<string>, w: World, p: Id, committed: bool)
    ensures Enabled(names, w, TryLock(p)) <==> PcOf(w, p) == Idle
    ensures Enabled(names, w, LoseLock(p)) <==> w.lock == Some(p)
    ensures Enabled(names, w, Fail(p, committed)) <==> PcOf(w, p) != Succeeded && PcOf(w, p) != Failed
    ensures Enabled(names, w, Restart(p)) <==> PcOf(w, p) == Succeeded || PcOf(w, p) == Failed
  {
  }

  /** An instance can be made to start again, and lets go of the lock by that. */
  lemma StartsAgain(names: seq<string>, w: World, p: Id) returns (es: seq<Event>, w': World)
    ensures Runs(names, w, es, w') && PcOf(w', p).Idle? && w'.log == w.log
    ensures w'.lock == (if w.lock == Some(p) && !PcOf(w, p).Idle? then None else w.lock)
    ensures forall q: Id :: q != p ==> PcOf(w', q) == PcOf(w, q)
  {
    if PcOf(w, p).Idle? {
      es, w' := [], w;
    } else {
      var failed := if PcOf(w, p).Succeeded? || PcOf(w, p).Failed? then w else Step(names, w, Fail(p, false));
      w' := Step(names, failed, Restart(p));
      es := Prepend(names, failed, Restart(p), [], w');
      if failed != w {
        es := Prepend(names, w, Fail(p, false), es, w');
      }
    }
  }

  ghost predicate HoldersWork(w: World) { forall p: Id :: w.lock == Some(p) ==> !PcOf(w, p).Idle? }

  lemma {:induction false} HoldersKeepWorking(names: seq<string>, w: World, es: seq<Event>, w': World)
    requires HoldersWork(w) && Runs(names, w, es, w')
    ensures HoldersWork(w')
    decreases |es|
  {
    if es != [] {
      HoldersKeepWorking(names, Step(names, w, es[0]), es[1..], w');
    }
  }

  /** Whatever has happened, any instance can still come to success: whoever holds the lock lets go of it
      when it fails or starts again. */
  lemma NeverStuck(names: seq<string>, w: World, past: seq<Event>, v: World, p: Id) returns (es: seq<Event>, v': World)
    requires Start(w) && Runs(names, w, past, v)
    ensures Runs(names, v, es, v') && PcOf(v', p).Succeeded? && forall x :: x in names ==> x in v'.log
  {
    HoldersKeepWorking(names, w, past, v);
    RunKeeps(names, w, past, v);
    var first, v1 := StartsAgain(names, v, p);
    var second, v2 := [], v1;
    if v1.lock.Some? {
      second, v2 := StartsAgain(names, v1, v1.lock.value);
    }
    RunKeeps(names, v, first, v1);
    RunKeeps(names, v1, second, v2);
    var v3 := Step(names, v2, TryLock(p));
    var v4 := Step(names, v3, CreateTable(p));
    StepKeeps(names, v2, TryLock(p));
    StepKeeps(names, v3, CreateTable(p));
    es, v' := GoesThrough(names, v4, p);
    RunKeeps(names, v4, es, v');
    assert PcOk(names, v', p);
    es := Prepend(names, v3, CreateTable(p), es, v');
    es := Prepend(names, v2, TryLock(p), es, v');
    es := Join(names, v1, second, v2, es, v');
    es := Join(names, v, first, v1, es, v');
  }

  lemma {:induction false} Join(names: seq<string>, w: World, es: seq<Event>, v: World, more: seq<Event>, w': World)
    returns (all: seq<Event>)
    requires Runs(names, w, es, v) && Runs(names, v, more, w')
    ensures Runs(names, w, all, w')
    decreases |es|
  {
    if es == [] {
      all := more;
    } else {
      all := Join(names, Step(names, w, es[0]), es[1..], v, more, w');
      all := Prepend(names, w, es[0], all, w');
    }
  }

  /** OneInstanceWorks needs its premise: once a lock session is lost, two instances can be at work. */
  lemma LostLockLetsTwoWork(names: seq<string>, w: World, p: Id, q: Id) returns (es: seq<Event>, w': World)
    requires Start(w) && p != q
    ensures Runs(names, w, es, w') && Working(w', p) && Working(w', q)
  {
    var w1 := Step(names, w, TryLock(p));
    var w2 := Step(names, w1, LoseLock(p));
    w' := Step(names, w2, TryLock(q));
    es := Prepend(names, w2, TryLock(q), [], w');
    es := Prepend(names, w1, LoseLock(p), es, w');
    es := Prepend(names, w, TryLock(p), es, w');
  }
}
