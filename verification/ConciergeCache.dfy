/** The in-process part of anmates-api/services/concierge.go: the prewarm cache and the registry of
    prewarms in flight, both guarded by one mutex. */
module ConciergeCache {
  import opened Wrappers

  type Id = nat

  /** How long a prefetched suggestion stays usable, in seconds. */
  const WARM_TTL: int := 600

  datatype Entry<C> = Entry(card: C, at: int)

  /** `warm` holds prefetched suggestions, `warming` the done-channel of each prewarm in flight. */
  datatype Cache<K, C, H> = Cache(warm: map<K, Entry<C>>, warming: map<K, H>)

  predicate IsFresh<C>(e: Entry<C>, now: int) { now - e.at < WARM_TTL }

  predicate HasFresh<K, C, H>(s: Cache<K, C, H>, k: K, now: int) {
    k in s.warm && IsFresh(s.warm[k], now)
  }

  predicate MayClaim<K, C, H>(s: Cache<K, C, H>, k: K, now: int) {
    k !in s.warming && !HasFresh(s, k, now)
  }

  function Claimed<K, C, H>(s: Cache<K, C, H>, k: K, done: H): Cache<K, C, H> {
    s.(warming := s.warming[k := done])
  }

  function Parked<K, C, H>(s: Cache<K, C, H>, k: K, e: Entry<C>): Cache<K, C, H> {
    s.(warm := s.warm[k := e])
  }

  function Released<K, C, H>(s: Cache<K, C, H>, k: K): Cache<K, C, H> {
    s.(warming := s.warming - {k})
  }

  function Taken<K, C, H>(s: Cache<K, C, H>, k: K, now: int): Cache<K, C, H> {
    if HasFresh(s, k, now) then s.(warm := s.warm - {k}) else s
  }

  /** A done-channel. Closing it twice would panic. */
  class Done {
    var closed: bool

    constructor ()
      ensures !closed
    {
      closed := false;
    }

    method Close()
      requires !closed
      modifies this
      ensures closed
    {
      closed := true;
    }
  }

  /** The critical sections of prewarm, inflightWarm and takeWarm. */
  class ConciergeService<C(==)> {
    var warm: map<Id, Entry<C>>
    var warming: map<Id, Done>

    constructor ()
      ensures Snapshot() == Cache(map[], map[])
    {
      warm, warming := map[], map[];
    }

    ghost function Snapshot(): Cache<Id, C, Done>
      reads this
    {
      Cache(warm, warming)
    }

    /** prewarm's entry: nobody else in flight and nothing fresh cached, or no claim. */
    method Claim(matchID: Id, now: int) returns (claim: Option<Done>)
      modifies this
      ensures claim.Some? <==> MayClaim(old(Snapshot()), matchID, now)
      ensures claim.Some? <==>
        matchID !in old(warming) && (matchID in old(warm) ==> now - old(warm)[matchID].at >= 600)
      ensures claim.Some? ==> fresh(claim.value) && !claim.value.closed
      ensures Snapshot() == if claim.Some? then Claimed(old(Snapshot()), matchID, claim.value) else old(Snapshot())
      ensures warm == old(warm) && (claim.Some? ==> warming == old(warming)[matchID := claim.value])
    {
      if matchID in warming {
        return None;
      }
      if matchID in warm && now - warm[matchID].at < WARM_TTL {
        return None;
      }
      var done := new Done();
      warming := warming[matchID := done];
      return Some(done);
    }

    method Park(matchID: Id, card: C, now: int)
      modifies this
      ensures Snapshot() == Parked(old(Snapshot()), matchID, Entry(card, now))
      ensures warm == old(warm)[matchID := Entry(card, now)] && warming == old(warming)
    {
      warm := warm[matchID := Entry(card, now)];
    }

    /** prewarm's deferred cleanup: unregister, then close the channel. */
    method Finish(matchID: Id, done: Done)
      requires !done.closed
      modifies this, done
      ensures Snapshot() == Released(old(Snapshot()), matchID) && done.closed
      ensures warm == old(warm) && warming == old(warming) - {matchID}
    {
      warming := warming - {matchID};
      done.Close();
    }

    method InflightWarm(matchID: Id) returns (done: Option<Done>)
      ensures done.Some? <==> matchID in warming
      ensures done.Some? ==> done.value == warming[matchID]
    {
      if matchID in warming {
        return Some(warming[matchID]);
      }
      return None;
    }

    method TakeWarm(matchID: Id, now: int) returns (card: Option<C>)
      modifies this
      ensures Snapshot() == Taken(old(Snapshot()), matchID, now)
      ensures card.Some? <==> matchID in old(warm) && now - old(warm)[matchID].at < 600
      ensures card.Some? ==> card.value == old(warm)[matchID].card
      ensures warming == old(warming) && warm == if card.Some? then old(warm) - {matchID} else old(warm)
    {
      if matchID !in warm || now - warm[matchID].at >= WARM_TTL {
        return None;
      }
      card := Some(warm[matchID].card);
      warm := warm - {matchID};
    }
  }
}
