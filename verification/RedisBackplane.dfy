/** The Redis-backed hub of anmates-api/ws/redis_hub.go: one process' local registry, its table of
    subscriptions, and the subscriptions that Redis holds open for it. */
module RedisBackplane {
  import opened LocalHub

  /** `subs` is the process' table (room -> subscription); `open` is what Redis has open
      (subscription -> channel); `next` numbers the subscriptions. */
  datatype Link<K> = Link(subs: map<K, nat>, open: map<nat, K>, next: nat)

  function Subscribe<K>(l: Link<K>, k: K): Link<K> {
    if k in l.subs then l
    else Link(l.subs[k := l.next], l.open[l.next := k], l.next + 1)
  }

  function Unsubscribe<K>(l: Link<K>, k: K): Link<K> {
    if k in l.subs then Link(l.subs - {k}, l.open - {l.subs[k]}, l.next) else l
  }

  /** The table and Redis agree: each entry is one open subscription and none is leaked. */
  ghost predicate InStep<K(!new)>(l: Link<K>) {
    && (forall k :: k in l.subs ==> l.subs[k] in l.open && l.open[l.subs[k]] == k)
    && (forall h :: h in l.open ==> h < l.next && l.open[h] in l.subs && l.subs[l.open[h]] == h)
  }

  lemma SubscribeInStep<K(!new)>(l: Link<K>, k: K)
    requires InStep(l)
    ensures InStep(Subscribe(l, k)) && k in Subscribe(l, k).subs
    ensures InStep(Unsubscribe(l, k)) && k !in Unsubscribe(l, k).subs
    ensures Unsubscribe(Subscribe(l, k), k).subs == l.subs - {k}
  {
  }

  /** How many subscriptions Redis delivers a message on channel `k` to. */
  ghost function Deliveries<K>(l: Link<K>, k: K): nat {
    |set h | h in l.open && l.open[h] == k|
  }

  /** A subscribed channel is delivered exactly once, any other channel not at all. */
  lemma DeliveredOnce<K(!new)>(l: Link<K>, k: K)
    requires InStep(l)
    ensures Deliveries(l, k) == if k in l.subs then 1 else 0
  {
    var hs := set h | h in l.open && l.open[h] == k;
    if k in l.subs {
      assert hs == {l.subs[k]};
    } else {
      assert hs == {};
    }
  }

  /** What one client's queue holds after `ms` were fanned out to it in order. */
  function OfferAll(queue: seq<Frame>, user: Id, ms: seq<Message>): seq<Frame>
    decreases |ms|
  {
    if ms == [] then queue
    else
      var before := OfferAll(queue, user, ms[..|ms| - 1]);
      var m := ms[|ms| - 1];
      if m.sender == user then before else Offer(before, Relayed(m))
  }

  /** Message by message: the sender's own are skipped, the others join the queue while it has room. */
  lemma OfferedNext(queue: seq<Frame>, user: Id, ms: seq<Message>, m: Message)
    ensures OfferAll(queue, user, []) == queue
    ensures (var before := OfferAll(queue, user, ms);
             && (m.sender == user || |before| >= 16 ==> OfferAll(queue, user, ms + [m]) == before)
             && (m.sender != user && |before| < 16 ==> OfferAll(queue, user, ms + [m]) == before + [Relayed(m)]))
  {
    assert (ms + [m])[..|ms|] == ms;
  }

  /** What others send arrives entire and in order, as long as the queue has room for it. */
  lemma {:induction false} AllFit(queue: seq<Frame>, user: Id, ms: seq<Message>)
    requires |queue| + |ms| <= 16 && forall m :: m in ms ==> m.sender != user
    ensures OfferAll(queue, user, ms) == queue + seq(|ms|, i requires 0 <= i < |ms| => Relayed(ms[i]))
    decreases |ms|
  {
    if ms != [] {
      var front, last := ms[..|ms| - 1], ms[|ms| - 1];
      assert ms == front + [last];
      AllFit(queue, user, front);
      OfferedNext(queue, user, front, last);
    }
  }

  class RedisHub {
    const local: Hub
    var subs: map<Id, nat>
    var open: map<nat, Id>
    var next: nat

    constructor ()
      ensures fresh(local) && local.rooms == map[] && Table() == Link(map[], map[], 0)
    {
      local := new Hub();
      subs, open, next := map[], map[], 0;
    }

    ghost function Table(): Link<Id>
      reads this
    {
      Link(subs, open, next)
    }

    /** Join's second critical section, under `mu`. */
    method SubscribeRoom(matchID: Id)
      modifies this
      ensures Table() == Subscribe(old(Table()), matchID)
    {
      if matchID !in subs {
        subs := subs[matchID := next];
        open := open[next := matchID];
        next := next + 1;
      }
    }

    /** Leave's second critical section, under `mu`. */
    method UnsubscribeIfEmpty(matchID: Id)
      modifies this
      ensures Table() == if Members(local.rooms, matchID) == {}
                         then Unsubscribe(old(Table()), matchID) else old(Table())
    {
      var empty := Members(local.rooms, matchID) == {};
      if empty && matchID in subs {
        open := open - {subs[matchID]};
        subs := subs - {matchID};
      }
    }

    method Join(matchID: Id, c: Client)
      modifies this, local
      ensures local.rooms == Enter(old(local.rooms), matchID, c)
      ensures Table() == Subscribe(old(Table()), matchID)
    {
      local.Join(matchID, c);
      SubscribeRoom(matchID);
    }

    method Leave(matchID: Id, c: Client)
      modifies this, local
      ensures local.rooms == Exit(old(local.rooms), matchID, c)
      ensures Table() == if Members(local.rooms, matchID) == {}
                         then Unsubscribe(old(Table()), matchID) else old(Table())
    {
      local.Leave(matchID, c);
      UnsubscribeIfEmpty(matchID);
    }

    /** One subscription's reader: fans every message out to the local room, in order. */
    method SubscribeLoop(matchID: Id, messages: seq<Message>)
      modifies Members(local.rooms, matchID)
      ensures forall c :: c in Members(local.rooms, matchID) ==>
        c.send == OfferAll(old(c.send), c.userID, messages)
      ensures forall c :: c in Members(local.rooms, matchID) ==>
        (|old(c.send)| + |messages| <= 16 && (forall m :: m in messages ==> m.sender != c.userID) ==>
           c.send == old(c.send) + seq(|messages|, i requires 0 <= i < |messages| => Relayed(messages[i])))
    {
      for i := 0 to |messages|
        invariant forall c :: c in Members(local.rooms, matchID) ==>
          c.send == OfferAll(old(c.send), c.userID, messages[..i])
      {
        assert messages[..i + 1][..i] == messages[..i];
        local.Broadcast(matchID, messages[i].sender, messages[i]);
      }
      assert messages[..|messages|] == messages;
      forall c | c in Members(local.rooms, matchID) && |old(c.send)| + |messages| <= 16
                 && forall m :: m in messages ==> m.sender != c.userID
        ensures c.send == old(c.send) + seq(|messages|, i requires 0 <= i < |messages| => Relayed(messages[i]))
      {
        AllFit(old(c.send), c.userID, messages);
      }
    }
  }
}
