/** Any number of api replicas, each a RedisHub, connected by Redis pub/sub, and any number of
    WebSocket clients that join once and then leave once. RedisHub.Join and RedisHub.Leave are two
    critical sections each, and Leave's emptiness check and its deletion are separate steps. */
module Cluster {
  import opened LocalHub
  import opened RedisBackplane

  datatype Conn = Conn(id: Id, user: Id, replica: Id, room: Id)

  /** A room as one replica sees it: the key of that replica's tables. */
  datatype Place = Place(replica: Id, room: Id)

  function At(c: Conn): Place { Place(c.replica, c.room) }

  /** Where a connection is in its life. `Deciding` is Leave inside its second critical section,
      having read whether the room is empty. */
  datatype Phase = Fresh | Joining | In | Leaving | Deciding(empty: bool) | Gone

  datatype World = World(
    rooms: map<Place, set<Conn>>,
    link: Link<Place>,
    lock: map<Id, Conn>,           // replica -> the call inside its subscription lock
    phase: map<Conn, Phase>,
    queue: map<Conn, seq<Frame>>,
    received: map<Conn, seq<Frame>>,
    log: seq<Message>)             // every broadcast so far

  const START: World := World(map[], Link(map[], map[], 0), map[], map[], map[], map[], [])

  function PhaseOf(w: World, c: Conn): Phase { if c in w.phase then w.phase[c] else Fresh }

  function QueueOf(w: World, c: Conn): seq<Frame> { if c in w.queue then w.queue[c] else [] }

  function ReceivedBy(w: World, c: Conn): seq<Frame> { if c in w.received then w.received[c] else [] }

  datatype Event =
    | JoinLocal(c: Conn)
    | JoinSubscribe(c: Conn)
    | LeaveLocal(c: Conn)
    | LeaveCheck(c: Conn)
    | LeaveFinish(c: Conn)
    | Broadcast(m: Message)
    | Fail(c: Conn, text: string)  // the connection's read loop takes a frame whose handler fails
    | Write(c: Conn)               // the connection's write loop takes one frame

  ghost predicate Enabled(w: World, e: Event) {
    match e
    case JoinLocal(c) => PhaseOf(w, c) == Fresh
    case JoinSubscribe(c) => PhaseOf(w, c) == Joining && c.replica !in w.lock
    case LeaveLocal(c) => PhaseOf(w, c) == In
    case LeaveCheck(c) => PhaseOf(w, c) == Leaving && c.replica !in w.lock
    case LeaveFinish(c) => PhaseOf(w, c).Deciding?
    case Broadcast(_) => true
    case Fail(c, _) => PhaseOf(w, c) == In
    case Write(c) => QueueOf(w, c) != []
  }

  /** Redis delivers `m` once per open subscription of the channel on the client's replica, and
      each delivery offers it to the room's members other than the sender. */
  ghost function Deliver(w: World, c: Conn, m: Message): seq<Frame> {
    if c.room == m.room && c.user != m.sender && c in Members(w.rooms, At(c))
    then OfferTimes(QueueOf(w, c), m, Deliveries(w.link, At(c)))
    else QueueOf(w, c)
  }

  function OfferTimes(queue: seq<Frame>, m: Message, n: nat): seq<Frame> {
    if n == 0 then queue else Offer(OfferTimes(queue, m, n - 1), Relayed(m))
  }

  ghost function Step(w: World, e: Event): World
    requires Enabled(w, e)
  {
    match e
    case JoinLocal(c) =>
      w.(rooms := Enter(w.rooms, At(c), c), phase := w.phase[c := Joining])
    case JoinSubscribe(c) =>
      w.(link := Subscribe(w.link, At(c)), phase := w.phase[c := In])
    case LeaveLocal(c) =>
      w.(rooms := Exit(w.rooms, At(c), c), phase := w.phase[c := Leaving])
    case LeaveCheck(c) =>
      w.(lock := w.lock[c.replica := c], phase := w.phase[c := Deciding(Members(w.rooms, At(c)) == {})])
    case LeaveFinish(c) =>
      w.(link := if PhaseOf(w, c).empty then Unsubscribe(w.link, At(c)) else w.link,
         lock := w.lock - {c.replica},
         phase := w.phase[c := Gone])
    case Broadcast(m) =>
      w.(queue := map c | c in w.phase :: Deliver(w, c, m), log := w.log + [m])
    case Fail(c, text) =>
      w.(queue := w.queue[c := Offer(QueueOf(w, c), Notice(text))])
    case Write(c) =>
      w.(queue := w.queue[c := QueueOf(w, c)[1..]],
         received := w.received[c := ReceivedBy(w, c) + [QueueOf(w, c)[0]]])
  }

  ghost predicate Runs(w: World, es: seq<Event>, w': World)
    decreases |es|
  {
    if es == [] then w == w' else Enabled(w, es[0]) && Runs(Step(w, es[0]), es[1..], w')
  }

  // ---- The invariant -----------------------------------------------------------------------

  ghost predicate Present(w: World, c: Conn) { PhaseOf(w, c).Joining? || PhaseOf(w, c).In? }

  /** The call holding the replica's subscription lock has found p's room empty. */
  ghost predicate Closing(w: World, p: Place) {
    p.replica in w.lock && At(w.lock[p.replica]) == p && PhaseOf(w, w.lock[p.replica]) == Deciding(true)
  }

  /** The registries hold a connection exactly between its local join and its local leave; only
      the lock holder is deciding; and a completed Join is covered by a subscription that nobody
      is about to close. */
  ghost predicate ConnOk(w: World, c: Conn) {
    && (c in Members(w.rooms, At(c)) <==> Present(w, c))
    && (PhaseOf(w, c).Deciding? ==> c.replica in w.lock && w.lock[c.replica] == c)
    && (PhaseOf(w, c).In? ==> At(c) in w.link.subs && !Closing(w, At(c)))
  }

  /** A connection that either uses its room's subscription or is still going to look at it. */
  ghost predicate Accounts(w: World, c: Conn, p: Place) {
    At(c) == p && (Present(w, c) || PhaseOf(w, c).Leaving? || PhaseOf(w, c) == Deciding(true))
  }

  /** No foreign or empty registry entries, and no subscription that nobody accounts for. */
  ghost predicate PlaceOk(w: World, p: Place) {
    && (forall c :: c in Members(w.rooms, p) ==> At(c) == p)
    && (p in w.rooms ==> w.rooms[p] != {})
    && (p in w.link.subs ==> exists c :: Accounts(w, c, p))
  }

  ghost predicate Inv(w: World) {
    && (forall c :: ConnOk(w, c))
    && (forall p :: PlaceOk(w, p))
    && (forall r :: r in w.lock ==> w.lock[r].replica == r && PhaseOf(w, w.lock[r]).Deciding?)
    && InStep(w.link)
  }

  lemma StartInv()
    ensures Inv(START)
  {
  }

  /** PlaceOk survives a step that neither adds to the place's room nor loses an accounting
      connection. */
  lemma PlaceKept(w: World, w': World, p: Place)
    requires PlaceOk(w, p)
    requires Members(w'.rooms, p) <= Members(w.rooms, p) && (p in w'.rooms ==> w'.rooms[p] != {})
    requires p in w'.link.subs ==> p in w.link.subs
    requires forall c :: p in w'.link.subs && Accounts(w, c, p) ==> Accounts(w', c, p)
    ensures PlaceOk(w', p)
  {
  }

  lemma JoinKeepsInv(w: World, c: Conn)
    requires Inv(w) && Enabled(w, JoinLocal(c))
    ensures Inv(Step(w, JoinLocal(c)))
  {
    var w' := Step(w, JoinLocal(c));
    forall d
      ensures ConnOk(w', d)
    {
      assert ConnOk(w, d) && ConnOk(w, c);
    }
    forall p
      ensures PlaceOk(w', p)
    {
      assert PlaceOk(w, p) && ConnOk(w, c);
      if p in w.link.subs {
        var d :| Accounts(w, d, p);
        assert Accounts(w', d, p);
      }
    }
  }

  lemma SubscribeKeepsInv(w: World, c: Conn)
    requires Inv(w) && Enabled(w, JoinSubscribe(c))
    ensures Inv(Step(w, JoinSubscribe(c)))
  {
    var w' := Step(w, JoinSubscribe(c));
    SubscribeInStep(w.link, At(c));
    forall d
      ensures ConnOk(w', d)
    {
      assert ConnOk(w, d) && ConnOk(w, c);
    }
    forall p
      ensures PlaceOk(w', p)
    {
      assert PlaceOk(w, p);
      if p == At(c) {
        assert Accounts(w', c, p);
      } else if p in w.link.subs {
        var d :| Accounts(w, d, p);
        assert Accounts(w', d, p);
      }
    }
  }

  lemma LeaveLocalKeepsInv(w: World, c: Conn)
    requires Inv(w) && Enabled(w, LeaveLocal(c))
    ensures Inv(Step(w, LeaveLocal(c)))
  {
    var w' := Step(w, LeaveLocal(c));
    forall d
      ensures ConnOk(w', d)
    {
      assert ConnOk(w, d) && ConnOk(w, c);
    }
    forall p
      ensures PlaceOk(w', p)
    {
      assert PlaceOk(w, p);
      PlaceKept(w, w', p);
    }
  }

  lemma LeaveCheckKeepsInv(w: World, c: Conn)
    requires Inv(w) && Enabled(w, LeaveCheck(c))
    ensures Inv(Step(w, LeaveCheck(c)))
  {
    var w' := Step(w, LeaveCheck(c));
    forall d
      ensures ConnOk(w', d)
    {
      assert ConnOk(w, d) && ConnOk(w, c);
    }
    forall p
      ensures PlaceOk(w', p)
    {
      assert PlaceOk(w, p);
      if p == At(c) && Members(w.rooms, p) != {} {
        var d :| d in Members(w.rooms, p);
        assert ConnOk(w, d);
        assert Accounts(w', d, p);
      } else {
        PlaceKept(w, w', p);
      }
    }
  }

  lemma LeaveFinishKeepsConn(w: World, c: Conn, d: Conn)
    requires Enabled(w, LeaveFinish(c)) && ConnOk(w, c) && ConnOk(w, d)
    ensures ConnOk(Step(w, LeaveFinish(c)), d)
  {
  }

  lemma LeaveFinishKeepsInv(w: World, c: Conn)
    requires Inv(w) && Enabled(w, LeaveFinish(c))
    ensures Inv(Step(w, LeaveFinish(c)))
  {
    var w' := Step(w, LeaveFinish(c));
    SubscribeInStep(w.link, At(c));
    assert ConnOk(w, c);
    forall d
      ensures ConnOk(w', d)
    {
      LeaveFinishKeepsConn(w, c, d);
    }
    hide ConnOk, InStep;
    forall p
      ensures PlaceOk(w', p)
    {
      PlaceKept(w, w', p);
    }
  }

  lemma SamePhases(w: World, w': World)
    requires Inv(w)
    requires w'.rooms == w.rooms && w'.link == w.link && w'.lock == w.lock && w'.phase == w.phase
    ensures Inv(w')
  {
    forall d
      ensures ConnOk(w', d)
    {
      assert ConnOk(w, d);
    }
    forall p
      ensures PlaceOk(w', p)
    {
      PlaceKept(w, w', p);
    }
  }

  lemma StepKeepsInv(w: World, e: Event)
    requires Inv(w) && Enabled(w, e)
    ensures Inv(Step(w, e))
  {
    match e
    case JoinLocal(c) => JoinKeepsInv(w, c);
    case JoinSubscribe(c) => SubscribeKeepsInv(w, c);
    case LeaveLocal(c) => LeaveLocalKeepsInv(w, c);
    case LeaveCheck(c) => LeaveCheckKeepsInv(w, c);
    case LeaveFinish(c) => LeaveFinishKeepsInv(w, c);
    case _ => SamePhases(w, Step(w, e));
  }

  lemma {:induction false} RunKeepsInv(w: World, es: seq<Event>, w': World)
    requires Inv(w) && Runs(w, es, w')
    ensures Inv(w')
    decreases |es|
  {
    if es != [] {
      StepKeepsInv(w, es[0]);
      RunKeepsInv(Step(w, es[0]), es[1..], w');
    }
  }

  // ---- Main results ------------------------------------------------------------------------

  /** In every interleaving, a connection whose Join has returned sits in its replica's registry
      and its room has exactly one open subscription there. */
  lemma JoinedIsSubscribed(es: seq<Event>, w: World, c: Conn)
    requires Runs(START, es, w) && PhaseOf(w, c).In?
    ensures c in Members(w.rooms, At(c)) && Deliveries(w.link, At(c)) == 1
  {
    StartInv();
    RunKeepsInv(START, es, w);
    assert ConnOk(w, c);
    DeliveredOnce(w.link, At(c));
  }

  ghost predicate Quiet(w: World) {
    forall c :: PhaseOf(w, c).Fresh? || PhaseOf(w, c).In? || PhaseOf(w, c).Gone?
  }

  /** With no Join or Leave in progress, the subscribed rooms are exactly the non-empty ones, and
      Redis holds no other subscription open. */
  lemma QuietSubscriptionsExact(es: seq<Event>, w: World)
    requires Runs(START, es, w) && Quiet(w)
    ensures w.link.subs.Keys == w.rooms.Keys
    ensures forall h :: h in w.link.open ==> w.link.open[h] in w.rooms
  {
    StartInv();
    RunKeepsInv(START, es, w);
    forall p | p in w.link.subs
      ensures p in w.rooms
    {
      assert PlaceOk(w, p);
      var c :| Accounts(w, c, p);
      assert ConnOk(w, c);
    }
    forall p | p in w.rooms
      ensures p in w.link.subs
    {
      assert PlaceOk(w, p);
      var c :| c in w.rooms[p];
      assert c in Members(w.rooms, p) && ConnOk(w, c);
    }
  }

  ghost predicate Reached(w: World, c: Conn) { Present(w, c) && At(c) in w.link.subs }

  ghost predicate QueuesHaveOwners(w: World) { w.queue.Keys <= w.phase.Keys && w.received.Keys <= w.phase.Keys }

  lemma {:induction false} QueuesBelongToConns(w: World, es: seq<Event>, w': World)
    requires QueuesHaveOwners(w) && Runs(w, es, w')
    ensures QueuesHaveOwners(w')
    decreases |es|
  {
    if es != [] {
      QueuesBelongToConns(Step(w, es[0]), es[1..], w');
    }
  }

  /** What one broadcast does to one queue: exactly one offer if the connection is reached from
      another user, nothing otherwise. */
  lemma OfferedExactlyOnce(w: World, m: Message, c: Conn)
    requires Inv(w) && QueuesHaveOwners(w)
    ensures QueueOf(Step(w, Broadcast(m)), c) ==
      if c.room == m.room && c.user != m.sender && Reached(w, c) && |QueueOf(w, c)| < 16
      then QueueOf(w, c) + [Relayed(m)] else QueueOf(w, c)
  {
    assert ConnOk(w, c);
    DeliveredOnce(w.link, At(c));
    var q := QueueOf(w, c);
    assert OfferTimes(q, m, 0) == q;
    assert OfferTimes(q, m, 1) == Offer(OfferTimes(q, m, 0), Relayed(m));
    if c in w.phase {
      assert QueueOf(Step(w, Broadcast(m)), c) == Deliver(w, c, m);
    }
  }

  // ---- Streams -----------------------------------------------------------------------------

  /** The broadcasts of others in the connection's room, in order. */
  function ForConn(log: seq<Message>, c: Conn): seq<Message>
    decreases |log|
  {
    if log == [] then []
    else
      var m := log[|log| - 1];
      ForConn(log[..|log| - 1], c) + if m.room == c.room && m.sender != c.user then [m] else []
  }

  /** `a` is obtained from `b` by dropping elements. */
  ghost predicate Subsequence(a: seq<Message>, b: seq<Message>)
    decreases |b|
  {
    if a == [] then true
    else if b == [] then false
    else
      || Subsequence(a, b[..|b| - 1])
      || (a[|a| - 1] == b[|b| - 1] && Subsequence(a[..|a| - 1], b[..|b| - 1]))
  }

  lemma SubsequenceExtends(a: seq<Message>, b: seq<Message>, m: Message)
    requires Subsequence(a, b)
    ensures Subsequence(a, b + [m]) && Subsequence(a + [m], b + [m])
  {
  }

  /** The broadcasts among what a client is sent. */
  function Broadcasts(fs: seq<Frame>): seq<Message>
    decreases |fs|
  {
    if fs == [] then []
    else Broadcasts(fs[..|fs| - 1]) + if fs[|fs| - 1].Relayed? then [fs[|fs| - 1].message] else []
  }

  lemma BroadcastsAfter(fs: seq<Frame>, f: Frame)
    ensures Broadcasts([]) == []
    ensures Broadcasts(fs + [f]) == if f.Relayed? then Broadcasts(fs) + [f.message] else Broadcasts(fs)
  {
    assert (fs + [f])[..|fs|] == fs;
  }

  /** What the client has received and still has queued. */
  ghost function Stream(w: World, c: Conn): seq<Frame> { ReceivedBy(w, c) + QueueOf(w, c) }

  ghost predicate StreamOk(w: World, c: Conn) {
    |QueueOf(w, c)| <= QUEUE_CAPACITY && Subsequence(Broadcasts(Stream(w, c)), ForConn(w.log, c))
  }

  lemma ForConnAfter(log: seq<Message>, m: Message, c: Conn)
    ensures ForConn([], c) == []
    ensures ForConn(log + [m], c) ==
      if m.room == c.room && m.sender != c.user then ForConn(log, c) + [m] else ForConn(log, c)
  {
    assert (log + [m])[..|log|] == log;
  }

  lemma OfferedStream(w: World, w': World, c: Conn, f: Frame)
    requires ReceivedBy(w', c) == ReceivedBy(w, c) && QueueOf(w', c) == Offer(QueueOf(w, c), f)
    requires |QueueOf(w, c)| <= QUEUE_CAPACITY
    ensures Stream(w', c) == Stream(w, c) || Stream(w', c) == Stream(w, c) + [f]
    ensures |QueueOf(w', c)| <= QUEUE_CAPACITY
  {
    hide QueueOf, ReceivedBy;
    if |QueueOf(w, c)| < QUEUE_CAPACITY {
      assert ReceivedBy(w, c) + (QueueOf(w, c) + [f]) == ReceivedBy(w, c) + QueueOf(w, c) + [f];
    }
  }

  /** A frame is offered to the connection; the log grows by the message it relays, or otherwise by
      none that is for the connection. */
  lemma OfferKeepsStream(w: World, w': World, c: Conn, f: Frame)
    requires StreamOk(w, c) && ReceivedBy(w', c) == ReceivedBy(w, c) && QueueOf(w', c) == Offer(QueueOf(w, c), f)
    requires ForConn(w'.log, c) == if f.Relayed? then ForConn(w.log, c) + [f.message] else ForConn(w.log, c)
    ensures StreamOk(w', c)
  {
    hide Offer, Stream, Broadcasts, Subsequence, ForConn, QueueOf, ReceivedBy;
    OfferedStream(w, w', c, f);
    BroadcastsAfter(Stream(w, c), f);
    if f.Relayed? {
      SubsequenceExtends(Broadcasts(Stream(w, c)), ForConn(w.log, c), f.message);
    }
  }

  lemma BroadcastKeepsStream(w: World, m: Message, c: Conn)
    requires Inv(w) && QueuesHaveOwners(w) && StreamOk(w, c)
    ensures StreamOk(Step(w, Broadcast(m)), c)
  {
    hide *;
    BroadcastLeaves(w, m, c);
    var w' := Step(w, Broadcast(m));
    OfferedExactlyOnce(w, m, c);
    ForConnAfter(w.log, m, c);
    OfferIs(QueueOf(w, c), Relayed(m));
    if QueueOf(w', c) == QueueOf(w, c) {
      SameQueueKeepsStream(w, w', c, m);
    } else {
      OfferKeepsStream(w, w', c, Relayed(m));
    }
  }

  lemma BroadcastLeaves(w: World, m: Message, c: Conn)
    ensures Enabled(w, Broadcast(m))
    ensures Step(w, Broadcast(m)).log == w.log + [m] && ReceivedBy(Step(w, Broadcast(m)), c) == ReceivedBy(w, c)
  {
  }

  lemma SameQueueKeepsStream(w: World, w': World, c: Conn, m: Message)
    requires StreamOk(w, c) && ReceivedBy(w', c) == ReceivedBy(w, c) && QueueOf(w', c) == QueueOf(w, c)
    requires ForConn(w'.log, c) == ForConn(w.log, c) || ForConn(w'.log, c) == ForConn(w.log, c) + [m]
    ensures StreamOk(w', c)
  {
    SubsequenceExtends(Broadcasts(Stream(w, c)), ForConn(w.log, c), m);
  }

  lemma StepKeepsStream(w: World, e: Event, c: Conn)
    requires Inv(w) && QueuesHaveOwners(w) && Enabled(w, e) && StreamOk(w, c)
    ensures StreamOk(Step(w, e), c)
  {
    hide Inv, Broadcasts, Offer, Subsequence;
    match e
    case Broadcast(m) => BroadcastKeepsStream(w, m, c);
    case Fail(d, text) => if d == c { OfferKeepsStream(w, Step(w, e), c, Notice(text)); }
    case Write(d) => if d == c { assert Stream(Step(w, e), c) == Stream(w, c); }
    case _ =>
  }

  lemma {:induction false} RunKeepsStream(w: World, es: seq<Event>, w': World, c: Conn)
    requires Inv(w) && QueuesHaveOwners(w) && Runs(w, es, w') && StreamOk(w, c)
    ensures StreamOk(w', c)
    decreases |es|
  {
    if es != [] {
      StepKeepsInv(w, es[0]);
      StepKeepsStream(w, es[0], c);
      QueuesBelongToConns(w, es[..1], Step(w, es[0]));
      hide Inv, StreamOk, Step, Enabled, QueuesHaveOwners;
      RunKeepsStream(Step(w, es[0]), es[1..], w', c);
    }
  }

  /** Over every run: no queue exceeds its capacity, notices included, and the broadcasts among what a
      client has received and still has queued are, in order, some of the broadcasts of others in
      its room. */
  lemma StreamsAreInOrder(es: seq<Event>, w: World, c: Conn)
    requires Runs(START, es, w)
    ensures |QueueOf(w, c)| <= 16
    ensures Subsequence(Broadcasts(ReceivedBy(w, c) + QueueOf(w, c)), ForConn(w.log, c))
  {
    StartInv();
    RunKeepsStream(START, es, w, c);
  }

  // ---- Nothing is lost ---------------------------------------------------------------------

  /** Whenever another user of the room broadcasts, the connection is reached and its queue has room. */
  ghost predicate NeverMissed(w: World, es: seq<Event>, c: Conn)
    decreases |es|
  {
    es != [] && Enabled(w, es[0]) ==>
      && (es[0].Broadcast? && es[0].m.room == c.room && es[0].m.sender != c.user ==>
            Reached(w, c) && |QueueOf(w, c)| < 16)
      && NeverMissed(Step(w, es[0]), es[1..], c)
  }

  lemma BroadcastDelivers(w: World, m: Message, c: Conn)
    requires Inv(w) && QueuesHaveOwners(w)
    requires m.room == c.room && m.sender != c.user ==> Reached(w, c) && |QueueOf(w, c)| < 16
    ensures (var w' := Step(w, Broadcast(m));
             && w'.log == w.log + [m]
             && Broadcasts(Stream(w', c)) == Broadcasts(Stream(w, c)) + ForConn([m], c))
  {
    hide *;
    BroadcastLeaves(w, m, c);
    var w' := Step(w, Broadcast(m));
    OfferedExactlyOnce(w, m, c);
    ForConnAfter([], m, c);
    assert [] + [m] == [m];
    if m.room == c.room && m.sender != c.user {
      StreamGrows(w, w', c, Relayed(m));
      BroadcastsAfter(Stream(w, c), Relayed(m));
    } else {
      SameStream(w, w', c);
      assert Broadcasts(Stream(w, c)) + [] == Broadcasts(Stream(w, c));
    }
  }

  lemma StreamGrows(w: World, w': World, c: Conn, f: Frame)
    requires ReceivedBy(w', c) == ReceivedBy(w, c) && QueueOf(w', c) == QueueOf(w, c) + [f]
    ensures Stream(w', c) == Stream(w, c) + [f]
  {
    assert ReceivedBy(w, c) + (QueueOf(w, c) + [f]) == ReceivedBy(w, c) + QueueOf(w, c) + [f];
  }

  lemma SameStream(w: World, w': World, c: Conn)
    requires ReceivedBy(w', c) == ReceivedBy(w, c) && QueueOf(w', c) == QueueOf(w, c)
    ensures Stream(w', c) == Stream(w, c)
  {
  }

  /** Every other event leaves the broadcasts of a stream as they are. */
  lemma OthersKeepBroadcasts(w: World, e: Event, c: Conn)
    requires Enabled(w, e) && !e.Broadcast?
    ensures Step(w, e).log == w.log && Broadcasts(Stream(Step(w, e), c)) == Broadcasts(Stream(w, c))
  {
    var w' := Step(w, e);
    match e
    case Fail(d, text) =>
      if d == c && QueueOf(w', c) != QueueOf(w, c) {
        StreamGrows(w, w', c, Notice(text));
        BroadcastsAfter(Stream(w, c), Notice(text));
      }
    case Write(d) =>
      if d == c { assert Stream(w', c) == Stream(w, c); }
    case _ =>
  }

  /** `added` is what the event adds to the log. */
  lemma StepDelivers(w: World, e: Event, c: Conn) returns (added: seq<Message>)
    requires Inv(w) && QueuesHaveOwners(w) && Enabled(w, e) && NeverMissed(w, [e], c)
    ensures Step(w, e).log == w.log + added
    ensures Broadcasts(Stream(Step(w, e), c)) == Broadcasts(Stream(w, c)) + ForConn(added, c)
  {
    hide Inv, Stream, Broadcasts, ForConn, QueuesHaveOwners;
    if e.Broadcast? {
      BroadcastDelivers(w, e.m, c);
      added := [e.m];
    } else {
      OthersKeepBroadcasts(w, e, c);
      ForConnAfter([], Message(0, 0, ""), c);
      added := [];
    }
  }

  lemma {:induction false} ForConnOfSum(log: seq<Message>, more: seq<Message>, c: Conn)
    ensures ForConn(log + more, c) == ForConn(log, c) + ForConn(more, c)
    decreases |more|
  {
    hide ForConn;
    if more == [] {
      ForConnAfter([], Message(0, 0, ""), c);
      assert log + more == log;
    } else {
      var front, last := more[..|more| - 1], more[|more| - 1];
      assert log + more == (log + front) + [last] && more == front + [last];
      ForConnOfSum(log, front, c);
      ForConnAfter(log + front, last, c);
      ForConnAfter(front, last, c);
    }
  }

  lemma FirstNeverMissed(w: World, es: seq<Event>, c: Conn)
    requires es != [] && Enabled(w, es[0]) && NeverMissed(w, es, c)
    ensures NeverMissed(w, [es[0]], c) && NeverMissed(Step(w, es[0]), es[1..], c)
  {
    hide Step;
    assert [es[0]][1..] == [];
  }

  lemma {:induction false} RunDelivers(w: World, es: seq<Event>, w': World, c: Conn)
    requires Inv(w) && QueuesHaveOwners(w) && Runs(w, es, w') && NeverMissed(w, es, c)
    ensures w.log <= w'.log
    ensures Broadcasts(Stream(w', c)) == Broadcasts(Stream(w, c)) + ForConn(w'.log[|w.log|..], c)
    decreases |es|
  {
    hide Inv, QueuesHaveOwners, Step, Enabled, NeverMissed, Stream, Broadcasts, ForConn;
    if es == [] {
      ForConnAfter([], Message(0, 0, ""), c);
      assert w'.log[|w.log|..] == [];
    } else {
      var v := Step(w, es[0]);
      StepKeepsInv(w, es[0]);
      OwnersKept(w, es[0]);
      FirstNeverMissed(w, es, c);
      var first := StepDelivers(w, es[0], c);
      RunDelivers(v, es[1..], w', c);
      assert w'.log[|w.log|..] == first + w'.log[|v.log|..];
      ForConnOfSum(first, w'.log[|v.log|..], c);
    }
  }

  lemma OwnersKept(w: World, e: Event)
    requires QueuesHaveOwners(w) && Enabled(w, e)
    ensures QueuesHaveOwners(Step(w, e))
  {
  }

  /** From any moment on: a connection that is reached whenever another user of its room broadcasts,
      and whose queue has room then, receives or still has queued exactly those broadcasts, in order,
      behind what it had before. */
  lemma EveryBroadcastArrives(before: seq<Event>, w: World, es: seq<Event>, w': World, c: Conn)
    requires Runs(START, before, w) && Runs(w, es, w') && NeverMissed(w, es, c)
    ensures w.log <= w'.log
    ensures Broadcasts(ReceivedBy(w', c) + QueueOf(w', c)) ==
            Broadcasts(ReceivedBy(w, c) + QueueOf(w, c)) + ForConn(w'.log[|w.log|..], c)
  {
    StartInv();
    RunKeepsInv(START, before, w);
    QueuesBelongToConns(START, before, w);
    RunDelivers(w, es, w', c);
  }

  /** The write loop can always hand over all that is queued, in order. */
  lemma {:induction false} QueueIsWritten(w: World, c: Conn) returns (es: seq<Event>, w': World)
    ensures Runs(w, es, w') && QueueOf(w', c) == [] && ReceivedBy(w', c) == ReceivedBy(w, c) + QueueOf(w, c)
    decreases |QueueOf(w, c)|
  {
    if QueueOf(w, c) == [] {
      es, w' := [], w;
    } else {
      var next := Step(w, Write(c));
      assert ReceivedBy(next, c) + QueueOf(next, c) == ReceivedBy(w, c) + QueueOf(w, c);
      assert Enabled(w, Write(c)) && |QueueOf(next, c)| < |QueueOf(w, c)|;
      hide Step, Enabled, QueueOf, ReceivedBy;
      es, w' := QueueIsWritten(next, c);
      es := Prepend(w, Write(c), es, w');
    }
  }

  // ---- Calls come through ------------------------------------------------------------------

  lemma Prepend(w: World, e: Event, es: seq<Event>, w': World) returns (all: seq<Event>)
    requires Enabled(w, e) && Runs(Step(w, e), es, w')
    ensures Runs(w, all, w')
  {
    all := [e] + es;
    assert all[1..] == es;
  }

  /** Whoever holds a replica's lock can let go of it. */
  lemma LockCanBeFreed(w: World, r: Id) returns (es: seq<Event>, w': World)
    requires Inv(w)
    ensures Runs(w, es, w') && Inv(w') && r !in w'.lock && w'.rooms == w.rooms
    ensures forall c :: !PhaseOf(w, c).Deciding? ==> PhaseOf(w', c) == PhaseOf(w, c)
  {
    if r in w.lock {
      var h := w.lock[r];
      w' := Step(w, LeaveFinish(h));
      StepKeepsInv(w, LeaveFinish(h));
      es := Prepend(w, LeaveFinish(h), [], w');
    } else {
      es, w' := [], w;
    }
  }

  /** From any state of any run, a connection that has not joined can come to have joined, reached by
      broadcasts, whatever other calls are in progress. */
  lemma JoinComesThrough(before: seq<Event>, w: World, c: Conn) returns (es: seq<Event>, w': World)
    requires Runs(START, before, w) && PhaseOf(w, c).Fresh?
    ensures Runs(w, es, w') && PhaseOf(w', c).In? && Reached(w', c)
  {
    StartInv();
    RunKeepsInv(START, before, w);
    var w1 := Step(w, JoinLocal(c));
    StepKeepsInv(w, JoinLocal(c));
    var mid, w2 := LockCanBeFreed(w1, c.replica);
    w' := Step(w2, JoinSubscribe(c));
    es := Prepend(w2, JoinSubscribe(c), [], w');
    es := JoinedRuns(w1, mid, w2, es, w');
    es := Prepend(w, JoinLocal(c), es, w');
  }

  /** And one that has joined can come to have left. */
  lemma LeaveComesThrough(before: seq<Event>, w: World, c: Conn) returns (es: seq<Event>, w': World)
    requires Runs(START, before, w) && PhaseOf(w, c).In?
    ensures Runs(w, es, w') && PhaseOf(w', c).Gone? && c !in Members(w'.rooms, At(c))
  {
    StartInv();
    RunKeepsInv(START, before, w);
    var w1 := Step(w, LeaveLocal(c));
    StepKeepsInv(w, LeaveLocal(c));
    var mid, w2 := LockCanBeFreed(w1, c.replica);
    var w3 := Step(w2, LeaveCheck(c));
    StepKeepsInv(w2, LeaveCheck(c));
    w' := Step(w3, LeaveFinish(c));
    StepKeepsInv(w3, LeaveFinish(c));
    assert ConnOk(w', c);
    es := Prepend(w3, LeaveFinish(c), [], w');
    es := Prepend(w2, LeaveCheck(c), es, w');
    es := JoinedRuns(w1, mid, w2, es, w');
    es := Prepend(w, LeaveLocal(c), es, w');
  }

  lemma {:induction false} JoinedRuns(w: World, es: seq<Event>, v: World, more: seq<Event>, w': World)
    returns (all: seq<Event>)
    requires Runs(w, es, v) && Runs(v, more, w')
    ensures Runs(w, all, w')
    decreases |es|
  {
    if es == [] {
      all := more;
    } else {
      all := JoinedRuns(Step(w, es[0]), es[1..], v, more, w');
      all := Prepend(w, es[0], all, w');
    }
  }

  /** A frame of a joined connection that fails is answered by a notice in its own queue, if there is
      room, and nothing else changes. */
  lemma FailureIsNoted(w: World, c: Conn, text: string)
    ensures Enabled(w, Fail(c, text)) <==> PhaseOf(w, c).In?
    ensures PhaseOf(w, c).In? ==>
      var w' := Step(w, Fail(c, text));
      && QueueOf(w', c) == (if |QueueOf(w, c)| < 16 then QueueOf(w, c) + [Notice(text)] else QueueOf(w, c))
      && (forall d :: d != c ==> QueueOf(w', d) == QueueOf(w, d)) && w'.received == w.received && w'.log == w.log
  {
  }
}
