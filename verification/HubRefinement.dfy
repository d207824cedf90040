/** The cluster of RedisHubs refines one hub: anmates-api/ws/hub.go alone, with every client of every
    replica in it. */
module HubRefinement {
  import opened LocalHub
  import opened Cluster

  /** One hub's registry, its clients' queues, what they have received, and the broadcasts so far. */
  datatype OneHub = OneHub(
    rooms: map<Id, set<Conn>>,
    queue: map<Conn, seq<Frame>>,
    received: map<Conn, seq<Frame>>,
    log: seq<Message>)

  const EMPTY_HUB: OneHub := OneHub(map[], map[], map[], [])

  function Queued(h: OneHub, c: Conn): seq<Frame> { if c in h.queue then h.queue[c] else [] }

  function Received(h: OneHub, c: Conn): seq<Frame> { if c in h.received then h.received[c] else [] }

  predicate HasMember(h: OneHub, c: Conn, r: Id) { c in Members(h.rooms, r) }

  datatype HubEvent =
    | HubJoin(c: Conn)
    | HubLeave(c: Conn)
    | HubBroadcast(m: Message)
    | HubFail(c: Conn, text: string)
    | HubWrite(c: Conn)

  predicate HubEnabled(h: OneHub, e: HubEvent) { e.HubWrite? ==> Queued(h, e.c) != [] }

  /** A broadcast offers its message once to every member of the room but the sender's own. */
  function Told(h: OneHub, m: Message, c: Conn): seq<Frame> {
    if HasMember(h, c, m.room) && c.user != m.sender then Offer(Queued(h, c), Relayed(m)) else Queued(h, c)
  }

  ghost function HubStep(h: OneHub, e: HubEvent): OneHub
    requires HubEnabled(h, e)
  {
    match e
    case HubJoin(c) => h.(rooms := Enter(h.rooms, c.room, c))
    case HubLeave(c) => h.(rooms := Exit(h.rooms, c.room, c))
    case HubBroadcast(m) =>
      h.(queue := map c | c in h.queue.Keys + Members(h.rooms, m.room) :: Told(h, m, c), log := h.log + [m])
    case HubFail(c, text) => h.(queue := h.queue[c := Offer(Queued(h, c), Notice(text))])
    case HubWrite(c) =>
      h.(queue := h.queue[c := Queued(h, c)[1..]], received := h.received[c := Received(h, c) + [Queued(h, c)[0]]])
  }

  ghost predicate HubRuns(h: OneHub, es: seq<HubEvent>, h': OneHub)
    decreases |es|
  {
    if es == [] then h == h' else HubEnabled(h, es[0]) && HubRuns(HubStep(h, es[0]), es[1..], h')
  }

  /** The hub's members are the connections that broadcasts reach, and its clients have the same
      queues and have received the same, in the same history of broadcasts. */
  ghost predicate LooksLike(w: World, h: OneHub) {
    && (forall c, r :: HasMember(h, c, r) <==> c.room == r && Reached(w, c))
    && (forall c :: Queued(h, c) == QueueOf(w, c) && Received(h, c) == ReceivedBy(w, c))
    && h.log == w.log
  }

  lemma Then(h: OneHub, e: HubEvent, es: seq<HubEvent>, h': OneHub) returns (all: seq<HubEvent>)
    requires HubEnabled(h, e) && HubRuns(HubStep(h, e), es, h')
    ensures HubRuns(h, all, h')
  {
    all := [e] + es;
    assert all[1..] == es;
  }

  lemma {:induction false} HubRunsJoin(h: OneHub, es: seq<HubEvent>, g: OneHub, more: seq<HubEvent>, h': OneHub)
    requires HubRuns(h, es, g) && HubRuns(g, more, h')
    ensures HubRuns(h, es + more, h')
    decreases |es|
  {
    if es == [] {
      assert es + more == more;
    } else {
      HubRunsJoin(HubStep(h, es[0]), es[1..], g, more, h');
      assert (es + more)[1..] == es[1..] + more;
    }
  }

  // ---- Changes of membership ---------------------------------------------------------------

  /** The hubs differ in membership alone. */
  ghost predicate SameTraffic(h: OneHub, h': OneHub) {
    h'.queue == h.queue && h'.received == h.received && h'.log == h.log
  }

  lemma JoinAdds(h: OneHub, c: Conn, d: Conn, r: Id)
    ensures HasMember(HubStep(h, HubJoin(c)), d, r) <==> HasMember(h, d, r) || (d == c && r == c.room)
  {
  }

  lemma LeaveRemoves(h: OneHub, c: Conn, d: Conn, r: Id)
    ensures HasMember(HubStep(h, HubLeave(c)), d, r) <==> HasMember(h, d, r) && !(d == c && r == c.room)
  {
    if r != c.room {
      assert Members(HubStep(h, HubLeave(c)).rooms, r) == Members(h.rooms, r);
    }
  }

  lemma {:induction false} JoinAll(h: OneHub, cs: set<Conn>) returns (es: seq<HubEvent>, h': OneHub)
    ensures HubRuns(h, es, h') && SameTraffic(h, h')
    ensures forall c, r :: HasMember(h', c, r) <==> HasMember(h, c, r) || (c in cs && c.room == r)
    decreases cs
  {
    if cs == {} {
      es, h' := [], h;
    } else {
      var c :| c in cs;
      var next := HubStep(h, HubJoin(c));
      es, h' := JoinAll(next, cs - {c});
      es := Then(h, HubJoin(c), es, h');
      hide HasMember, HubRuns;
      forall d, r
        ensures HasMember(h', d, r) <==> HasMember(h, d, r) || (d in cs && d.room == r)
      {
        JoinAdds(h, c, d, r);
      }
    }
  }

  lemma {:induction false} LeaveAll(h: OneHub, cs: set<Conn>) returns (es: seq<HubEvent>, h': OneHub)
    ensures HubRuns(h, es, h') && SameTraffic(h, h')
    ensures forall c, r :: HasMember(h', c, r) <==> HasMember(h, c, r) && !(c in cs && c.room == r)
    decreases cs
  {
    if cs == {} {
      es, h' := [], h;
    } else {
      var c :| c in cs;
      var next := HubStep(h, HubLeave(c));
      es, h' := LeaveAll(next, cs - {c});
      es := Then(h, HubLeave(c), es, h');
      hide HasMember, HubRuns;
      forall d, r
        ensures HasMember(h', d, r) <==> HasMember(h, d, r) && !(d in cs && d.room == r)
      {
        LeaveRemoves(h, c, d, r);
      }
    }
  }

  /** Who is reached after a step of Join or Leave: some connections more, or some fewer. */
  ghost predicate ReachGrows(w: World, w': World, cs: set<Conn>) {
    forall c :: Reached(w', c) <==> Reached(w, c) || c in cs
  }

  ghost predicate ReachShrinks(w: World, w': World, cs: set<Conn>) {
    forall c :: Reached(w', c) <==> Reached(w, c) && c !in cs
  }

  ghost predicate SameFrames(w: World, w': World) {
    w'.queue == w.queue && w'.received == w.received && w'.log == w.log
  }

  lemma JoinsRefined(w: World, w': World, h: OneHub, cs: set<Conn>) returns (es: seq<HubEvent>, h': OneHub)
    requires LooksLike(w, h) && SameFrames(w, w') && ReachGrows(w, w', cs)
    ensures HubRuns(h, es, h') && LooksLike(w', h')
  {
    es, h' := JoinAll(h, cs);
    hide Reached;
    forall c, r
      ensures HasMember(h', c, r) <==> c.room == r && Reached(w', c)
    {
      assert HasMember(h, c, r) <==> c.room == r && Reached(w, c);
    }
    forall c
      ensures Queued(h', c) == QueueOf(w', c) && Received(h', c) == ReceivedBy(w', c)
    {
      assert Queued(h, c) == QueueOf(w, c);
    }
  }

  lemma LeavesRefined(w: World, w': World, h: OneHub, cs: set<Conn>) returns (es: seq<HubEvent>, h': OneHub)
    requires LooksLike(w, h) && SameFrames(w, w') && ReachShrinks(w, w', cs)
    ensures HubRuns(h, es, h') && LooksLike(w', h')
  {
    es, h' := LeaveAll(h, cs);
    hide Reached;
    forall c, r
      ensures HasMember(h', c, r) <==> c.room == r && Reached(w', c)
    {
      assert HasMember(h, c, r) <==> c.room == r && Reached(w, c);
    }
    forall c
      ensures Queued(h', c) == QueueOf(w', c) && Received(h', c) == ReceivedBy(w', c)
    {
      assert Queued(h, c) == QueueOf(w, c);
    }
  }

  ghost function Joining(w: World, e: Event): set<Conn>
    requires e.JoinLocal? || e.JoinSubscribe?
  {
    if e.JoinSubscribe? then Members(w.rooms, At(e.c)) else if At(e.c) in w.link.subs then {e.c} else {}
  }

  ghost function Leaving(w: World, e: Event): set<Conn>
    requires e.LeaveLocal? || e.LeaveCheck? || e.LeaveFinish?
  {
    if e.LeaveLocal? then {e.c}
    else if e.LeaveFinish? && PhaseOf(w, e.c) == Deciding(true) then Members(w.rooms, At(e.c))
    else {}
  }

  lemma JoinReaches(w: World, e: Event)
    requires Inv(w) && Enabled(w, e) && (e.JoinLocal? || e.JoinSubscribe?)
    ensures ReachGrows(w, Step(w, e), Joining(w, e)) && SameFrames(w, Step(w, e))
  {
    forall c
      ensures Reached(Step(w, e), c) <==> Reached(w, c) || c in Joining(w, e)
    {
      assert ConnOk(w, c) && ConnOk(w, e.c) && PlaceOk(w, At(e.c));
    }
  }

  lemma LeaveReaches(w: World, e: Event)
    requires Inv(w) && Enabled(w, e) && (e.LeaveLocal? || e.LeaveCheck? || e.LeaveFinish?)
    ensures ReachShrinks(w, Step(w, e), Leaving(w, e)) && SameFrames(w, Step(w, e))
  {
    forall c
      ensures Reached(Step(w, e), c) <==> Reached(w, c) && c !in Leaving(w, e)
    {
      assert ConnOk(w, c) && ConnOk(w, e.c) && PlaceOk(w, At(e.c));
    }
  }

  // ---- Traffic -----------------------------------------------------------------------------

  lemma BroadcastRefined(w: World, m: Message, h: OneHub)
    requires Inv(w) && QueuesHaveOwners(w) && LooksLike(w, h)
    ensures LooksLike(Step(w, Broadcast(m)), HubStep(h, HubBroadcast(m)))
  {
    var w', h' := Step(w, Broadcast(m)), HubStep(h, HubBroadcast(m));
    forall c
      ensures Queued(h', c) == QueueOf(w', c) && Received(h', c) == ReceivedBy(w', c)
    {
      OfferedExactlyOnce(w, m, c);
      assert Queued(h, c) == QueueOf(w, c) && Received(h, c) == ReceivedBy(w, c);
      assert HasMember(h, c, c.room) <==> Reached(w, c);
      assert HasMember(h, c, m.room) <==> c.room == m.room && Reached(w, c);
    }
    SameReach(w, w');
    forall c, r
      ensures HasMember(h', c, r) <==> c.room == r && Reached(w', c)
    {
      assert HasMember(h, c, r) <==> c.room == r && Reached(w, c);
    }
  }

  lemma SameReach(w: World, w': World)
    requires w'.phase == w.phase && w'.link == w.link
    ensures forall c :: Reached(w', c) <==> Reached(w, c)
  {
  }

  lemma OwnQueueRefined(w: World, e: Event, h: OneHub) returns (f: HubEvent)
    requires LooksLike(w, h) && Enabled(w, e) && (e.Fail? || e.Write?)
    ensures HubEnabled(h, f) && LooksLike(Step(w, e), HubStep(h, f))
  {
    f := if e.Fail? then HubFail(e.c, e.text) else HubWrite(e.c);
    assert Queued(h, e.c) == QueueOf(w, e.c);
    var w', h' := Step(w, e), HubStep(h, f);
    SameReach(w, w');
    forall c, r
      ensures HasMember(h', c, r) <==> c.room == r && Reached(w', c)
    {
      assert HasMember(h, c, r) <==> c.room == r && Reached(w, c);
    }
    forall c
      ensures Queued(h', c) == QueueOf(w', c) && Received(h', c) == ReceivedBy(w', c)
    {
      assert Queued(h, c) == QueueOf(w, c) && Received(h, c) == ReceivedBy(w, c);
    }
  }

  // ---- Whole runs --------------------------------------------------------------------------

  lemma StepRefined(w: World, e: Event, h: OneHub) returns (es: seq<HubEvent>, h': OneHub)
    requires Inv(w) && QueuesHaveOwners(w) && Enabled(w, e) && LooksLike(w, h)
    ensures HubRuns(h, es, h') && LooksLike(Step(w, e), h')
  {
    hide Inv, LooksLike, QueuesHaveOwners, Step, Enabled, HubStep;
    if e.JoinLocal? || e.JoinSubscribe? {
      JoinReaches(w, e);
      es, h' := JoinsRefined(w, Step(w, e), h, Joining(w, e));
    } else if e.LeaveLocal? || e.LeaveCheck? || e.LeaveFinish? {
      LeaveReaches(w, e);
      es, h' := LeavesRefined(w, Step(w, e), h, Leaving(w, e));
    } else {
      var f: HubEvent;
      if e.Broadcast? {
        BroadcastRefined(w, e.m, h);
        f := HubBroadcast(e.m);
      } else {
        f := OwnQueueRefined(w, e, h);
      }
      h' := HubStep(h, f);
      es := Then(h, f, [], h');
    }
  }

  lemma {:induction false} RunRefined(w: World, es: seq<Event>, w': World, h: OneHub)
    returns (hs: seq<HubEvent>, h': OneHub)
    requires Inv(w) && QueuesHaveOwners(w) && Runs(w, es, w') && LooksLike(w, h)
    ensures HubRuns(h, hs, h') && LooksLike(w', h')
    decreases |es|
  {
    if es == [] {
      hs, h' := [], h;
    } else {
      var first, g := StepRefined(w, es[0], h);
      StepKeepsInv(w, es[0]);
      OwnersKept(w, es[0]);
      hide Inv, LooksLike, QueuesHaveOwners, Step, Enabled, HubRuns;
      var rest;
      rest, h' := RunRefined(Step(w, es[0]), es[1..], w', g);
      HubRunsJoin(h, first, g, rest, h');
      hs := first + rest;
    }
  }

  /** Every run of the cluster has a run of one hub, with the same broadcasts, that ends with the same
      queues and the same frames received by every client; its members are then the connections
      that broadcasts reach: all whose Join has returned, and some whose Join is in progress. */
  lemma ClusterRefinesOneHub(es: seq<Event>, w: World) returns (hs: seq<HubEvent>, h: OneHub)
    requires Runs(START, es, w)
    ensures HubRuns(EMPTY_HUB, hs, h) && LooksLike(w, h)
    ensures forall c :: Received(h, c) == ReceivedBy(w, c)
    ensures forall c: Conn :: PhaseOf(w, c).In? ==> HasMember(h, c, c.room)
    ensures forall c: Conn :: HasMember(h, c, c.room) ==> Present(w, c)
  {
    StartInv();
    hs, h := RunRefined(START, es, w, EMPTY_HUB);
    RunKeepsInv(START, es, w);
    forall c
      ensures PhaseOf(w, c).In? ==> HasMember(h, c, c.room)
      ensures HasMember(h, c, c.room) ==> Present(w, c)
    {
      assert ConnOk(w, c);
      assert HasMember(h, c, c.room) <==> Reached(w, c);
    }
  }

  /** With no Join or Leave in progress that hub has exactly the registered clients as members. */
  lemma QuietClusterIsOneHub(es: seq<Event>, w: World, h: OneHub, c: Conn)
    requires Runs(START, es, w) && Quiet(w) && LooksLike(w, h)
    ensures HasMember(h, c, c.room) <==> c in Members(w.rooms, At(c))
  {
    StartInv();
    RunKeepsInv(START, es, w);
    assert HasMember(h, c, c.room) <==> Reached(w, c);
    assert ConnOk(w, c);
  }
}
