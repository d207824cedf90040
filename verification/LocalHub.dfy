/** The in-process hub of anmates-api/ws/hub.go: rooms of connected clients, each client with a
    bounded send queue that drops instead of blocking. */
module LocalHub {
  type Id = nat

  /** One broadcast: the room it is for, the user who caused it, and the wire payload. */
  datatype Message = Message(room: Id, sender: Id, body: string)

  /** What a client is sent: a broadcast of its room, or a notice that one of its own frames failed. */
  datatype Frame = Relayed(message: Message) | Notice(text: string)

  /** Capacity of a client's send channel. */
  const QUEUE_CAPACITY: nat := 16

  // ---- The registry: room -> members -------------------------------------------------------

  function Members<K, C>(rooms: map<K, set<C>>, k: K): set<C> {
    if k in rooms then rooms[k] else {}
  }

  function Enter<K(!new), C>(rooms: map<K, set<C>>, k: K, c: C): (after: map<K, set<C>>)
    ensures Members(after, k) == Members(rooms, k) + {c}
    ensures forall j :: j != k ==> Members(after, j) == Members(rooms, j)
    ensures NoEmptyRoom(rooms) ==> NoEmptyRoom(after)
  {
    rooms[k := Members(rooms, k) + {c}]
  }

  function Exit<K(!new), C>(rooms: map<K, set<C>>, k: K, c: C): (after: map<K, set<C>>)
    ensures Members(after, k) == Members(rooms, k) - {c}
    ensures forall j :: j != k ==> Members(after, j) == Members(rooms, j)
    ensures NoEmptyRoom(rooms) ==> NoEmptyRoom(after)
  {
    if k !in rooms then rooms
    else if rooms[k] - {c} == {} then rooms - {k}
    else rooms[k := rooms[k] - {c}]
  }

  /** A room is dropped from the registry with its last member. */
  ghost predicate NoEmptyRoom<K(!new), C>(rooms: map<K, set<C>>) {
    forall k :: k in rooms ==> rooms[k] != {}
  }

  // ---- A send queue ------------------------------------------------------------------------

  /** A non-blocking channel send. */
  function Offer(queue: seq<Frame>, f: Frame): seq<Frame> {
    if |queue| < QUEUE_CAPACITY then queue + [f] else queue
  }

  lemma OfferIs(queue: seq<Frame>, f: Frame)
    ensures Offer(queue, f) == if |queue| < 16 then queue + [f] else queue
  {
  }

  class Client {
    const userID: Id
    var send: seq<Frame>

    constructor (userID: Id)
      ensures this.userID == userID && send == []
    {
      this.userID := userID;
      send := [];
    }

    method TrySend(f: Frame) returns (sent: bool)
      modifies this
      ensures sent <==> |old(send)| < 16
      ensures send == (if sent then old(send) + [f] else old(send)) == Offer(old(send), f)
    {
      sent := |send| < QUEUE_CAPACITY;
      if sent {
        send := send + [f];
      }
    }

    /** The read loop's answer to one frame of this client, whose handler fails with `error`. */
    method NoteFailure(error: string)
      modifies this
      ensures |old(send)| < 16 ==> send == old(send) + [Notice(error)]
      ensures |old(send)| >= 16 ==> send == old(send)
    {
      var _ := TrySend(Notice(error));
    }
  }

  class Hub {
    var rooms: map<Id, set<Client>>

    constructor ()
      ensures rooms == map[]
    {
      rooms := map[];
    }

    method Join(matchID: Id, c: Client)
      modifies this
      ensures rooms == Enter(old(rooms), matchID, c)
      ensures matchID in rooms && c in rooms[matchID]
    {
      if matchID !in rooms {
        rooms := rooms[matchID := {}];
      }
      rooms := rooms[matchID := rooms[matchID] + {c}];
    }

    method Leave(matchID: Id, c: Client)
      modifies this
      ensures rooms == Exit(old(rooms), matchID, c)
      ensures matchID in rooms <==> matchID in old(rooms) && old(rooms)[matchID] - {c} != {}
      ensures matchID in rooms ==> rooms[matchID] == old(rooms)[matchID] - {c}
    {
      if matchID in rooms {
        rooms := rooms[matchID := rooms[matchID] - {c}];
        if rooms[matchID] == {} {
          rooms := rooms - {matchID};
          assert rooms == old(rooms) - {matchID};
        }
      }
    }

    /** Every member other than the sender is offered the message exactly once; nothing else
        changes (the frame is the room's members). */
    method Broadcast(matchID: Id, senderID: Id, m: Message)
      modifies Members(rooms, matchID)
      ensures forall c :: c in Members(rooms, matchID) && c.userID != senderID && |old(c.send)| < 16 ==>
        c.send == old(c.send) + [Relayed(m)]
      ensures forall c :: c in Members(rooms, matchID) && (c.userID == senderID || |old(c.send)| >= 16) ==>
        c.send == old(c.send)
    {
      var todo := Members(rooms, matchID);
      var clients: seq<Client> := [];
      while todo != {}
        invariant todo <= Members(rooms, matchID)
        invariant forall c :: c in clients <==> c in Members(rooms, matchID) - todo && c.userID != senderID
        invariant forall i, j :: 0 <= i < j < |clients| ==> clients[i] != clients[j]
        decreases todo
      {
        var c :| c in todo;
        if c.userID != senderID {
          clients := clients + [c];
        }
        todo := todo - {c};
      }
      for i := 0 to |clients|
        invariant forall c :: c in Members(rooms, matchID) ==>
          c.send == if c in clients[..i] then Offer(old(c.send), Relayed(m)) else old(c.send)
      {
        assert clients[..i + 1] == clients[..i] + [clients[i]];
        assert clients[i] in clients && clients[i] !in clients[..i];
        var _ := clients[i].TrySend(Relayed(m));
      }
      assert clients[..|clients|] == clients;
    }
  }
}
