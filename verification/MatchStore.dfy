/** The tables behind anmates-api/services/matching.go and its statements, each of which is atomic.
    The index uq_matches_pair allows one match per unordered pair of users. */
module MatchStore {
  import opened Wrappers

  type Id = nat

  datatype SwipeRow = SwipeRow(liked: bool, at: int)

  datatype Match = Match(a: Id, b: Id)

  datatype Progress = Progress(points: nat, level: nat)

  datatype Store = Store(
    swipes: map<(Id, Id), SwipeRow>,    // (user, target)
    blocks: set<(Id, Id)>,           // (blocker, blocked)
    matches: map<Id, Match>,
    progress: map<Id, Progress>,     // by match
    nextMatch: Id)

  const EMPTY: Store := Store(map[], {}, map[], map[], 0)

  predicate IsPair(m: Match, u: Id, v: Id) { (m.a == u && m.b == v) || (m.a == v && m.b == u) }

  predicate HasMatch(s: Store, u: Id, v: Id) { exists m :: m in s.matches && IsPair(s.matches[m], u, v) }

  predicate Likes(s: Store, u: Id, v: Id) { (u, v) in s.swipes && s.swipes[(u, v)].liked }

  predicate Blocked(s: Store, u: Id, v: Id) { (u, v) in s.blocks || (v, u) in s.blocks }

  function PutSwipe(s: Store, u: Id, v: Id, liked: bool, now: int): Store {
    s.(swipes := s.swipes[(u, v) := SwipeRow(liked, now)])
  }

  /** The swipe check of the second statement, asked by u about v. */
  predicate Reciprocated(s: Store, u: Id, v: Id) { Likes(s, v, u) && !Blocked(s, u, v) }

  /** The match row and its progress row, in one transaction. */
  function PutMatch(s: Store, u: Id, v: Id): Store {
    s.(matches := s.matches[s.nextMatch := Match(u, v)],
       progress := s.progress[s.nextMatch := Progress(0, 1)],
       nextMatch := s.nextMatch + 1)
  }

  /** Deletes u's most recent swipe. */
  function UndoSwipe(s: Store, u: Id): Store {
    s.(swipes := map k | k in s.swipes && !(k.0 == u && IsLatest(s, k)) :: s.swipes[k])
  }

  predicate IsLatest(s: Store, k: (Id, Id))
    requires k in s.swipes
  {
    forall j :: j in s.swipes && j.0 == k.0 ==> s.swipes[j].at <= s.swipes[k].at
  }

  /** Deletes a match; its progress row goes with it. */
  function DropMatch(s: Store, m: Id): Store {
    s.(matches := s.matches - {m}, progress := s.progress - {m})
  }

  function PutBlock(s: Store, u: Id, v: Id): Store {
    Store(s.swipes - {(u, v), (v, u)}, s.blocks + {(u, v)},
          map m | m in s.matches && !IsPair(s.matches[m], u, v) :: s.matches[m],
          map m | m in s.progress && !(m in s.matches && IsPair(s.matches[m], u, v)) :: s.progress[m],
          s.nextMatch)
  }

  /** One match per unordered pair of different users, one progress row per match. */
  ghost predicate Consistent(s: Store) {
    && (forall m, n :: m in s.matches && n in s.matches && m != n ==> !IsPair(s.matches[m], s.matches[n].a, s.matches[n].b))
    && s.progress.Keys == s.matches.Keys
    && (forall m :: m in s.matches ==> m < s.nextMatch && s.matches[m].a != s.matches[m].b)
  }

  /** What a call returns: the tables' checks refuse rows of a user with himself. */
  datatype Outcome = Error | Unmatched | Matched(matchID: Id)

  class MatchingService {
    var swipes: map<(Id, Id), SwipeRow>
    var blocks: set<(Id, Id)>
    var matches: map<Id, Match>
    var progress: map<Id, Progress>
    var nextMatch: Id

    constructor ()
      ensures Tables() == EMPTY && Consistent(Tables())
    {
      swipes, blocks, matches, progress, nextMatch := map[], {}, map[], map[], 0;
    }

    ghost function Tables(): Store
      reads this
    {
      Store(swipes, blocks, matches, progress, nextMatch)
    }

    method FindMatch(u: Id, v: Id) returns (found: Option<Id>)
      ensures found.Some? <==> HasMatch(Tables(), u, v)
      ensures found.Some? ==> found.value in matches && matches[found.value] in {Match(u, v), Match(v, u)}
      ensures found.None? ==> forall m :: m in matches ==> matches[m] !in {Match(u, v), Match(v, u)}
    {
      if m :| m in matches && IsPair(matches[m], u, v) {
        return Some(m);
      }
      return None;
    }

    /** Fetch or create. */
    method CreateMatch(u: Id, v: Id) returns (r: Outcome)
      requires Consistent(Tables())
      modifies this
      ensures Consistent(Tables())
      ensures Tables() == if u == v || HasMatch(old(Tables()), u, v) then old(Tables()) else PutMatch(old(Tables()), u, v)
      ensures r == Error <==> u == v
      ensures u != v ==> r.Matched? && r.matchID in progress && r.matchID in matches
      ensures u != v ==> matches[r.matchID] in {Match(u, v), Match(v, u)}
      ensures swipes == old(swipes) && blocks == old(blocks)
      ensures Tables() != old(Tables()) ==>
        && r.matchID !in old(matches) && r.matchID !in old(progress)
        && matches == old(matches)[r.matchID := Match(u, v)] && progress == old(progress)[r.matchID := Progress(0, 1)]
    {
      var found := FindMatch(u, v);
      if found.Some? {
        return Matched(found.value);
      }
      if u == v {
        return Error;
      }
      var m := nextMatch;
      matches := matches[m := Match(u, v)];
      progress := progress[m := Progress(0, 1)];
      nextMatch := m + 1;
      return Matched(m);
    }

    /** A whole swipe with nothing in between. */
    method Swipe(u: Id, v: Id, liked: bool, now: int) returns (r: Outcome)
      requires Consistent(Tables())
      modifies this
      ensures Consistent(Tables())
      ensures r == Error <==> u == v
      ensures r == Error ==> Tables() == old(Tables())
      ensures u != v ==>
        var put := PutSwipe(old(Tables()), u, v, liked, now);
        && (r.Matched? <==> liked && Reciprocated(put, u, v))
        && Tables() == if r.Matched? && !HasMatch(put, u, v) then PutMatch(put, u, v) else put
      ensures u != v ==>
        && swipes == old(swipes)[(u, v) := SwipeRow(liked, now)] && blocks == old(blocks)
        && (r.Matched? <==>
              && liked && (v, u) in old(swipes) && old(swipes)[(v, u)].liked
              && (u, v) !in blocks && (v, u) !in blocks)
        && (!r.Matched? ==> matches == old(matches) && progress == old(progress))
      ensures r.Matched? ==> r.matchID in matches && matches[r.matchID] in {Match(u, v), Match(v, u)}
    {
      if u == v {
        return Error;
      }
      swipes := swipes[(u, v) := SwipeRow(liked, now)];
      if !liked {
        return Unmatched;
      }
      var reciprocated := (v, u) in swipes && swipes[(v, u)].liked && (u, v) !in blocks && (v, u) !in blocks;
      if !reciprocated {
        return Unmatched;
      }
      r := CreateMatch(u, v);
    }

    method Undo(u: Id)
      modifies this
      ensures Tables() == UndoSwipe(old(Tables()), u)
      ensures matches == old(matches) && progress == old(progress) && blocks == old(blocks)
      ensures forall k :: k in swipes ==> k in old(swipes) && swipes[k] == old(swipes)[k]
      ensures forall k :: k in old(swipes) && k.0 != u ==> k in swipes
      ensures forall j, k | j in old(swipes) && k in old(swipes) && j.0 == k.0 == u ::
        (old(swipes)[j].at > old(swipes)[k].at ==> k in swipes)
      ensures forall k | k in old(swipes) && k.0 == u ::
        (forall j | j in old(swipes) && j.0 == u :: old(swipes)[j].at <= old(swipes)[k].at) ==> k !in swipes
    {
      swipes := map k | k in swipes &&
        !(k.0 == u && forall j :: j in swipes && j.0 == u ==> swipes[j].at <= swipes[k].at) :: swipes[k];
    }
  }

  /** Blocking parts a pair: no swipe between the two and no match of theirs is left, and neither can
      match the other; everything else stays. */
  lemma BlockParts(s: Store, u: Id, v: Id)
    ensures (var after := PutBlock(s, u, v);
             && (u, v) !in after.swipes && (v, u) !in after.swipes
             && (forall m :: m in after.matches ==> after.matches[m] !in {Match(u, v), Match(v, u)})
             && !Reciprocated(after, u, v) && !Reciprocated(after, v, u)
             && after.blocks == s.blocks + {(u, v)}
             && (forall k :: k in s.swipes && k !in {(u, v), (v, u)} ==> k in after.swipes && after.swipes[k] == s.swipes[k])
             && (forall m :: m in s.matches && s.matches[m] !in {Match(u, v), Match(v, u)} ==>
                   m in after.matches && after.matches[m] == s.matches[m]))
  {
  }

  /** Unmatching removes the one match with its progress. */
  lemma UnmatchRemoves(s: Store, m: Id)
    ensures (var after := DropMatch(s, m);
             && m !in after.matches && m !in after.progress && after.swipes == s.swipes && after.blocks == s.blocks
             && (forall n :: n in s.matches && n != m ==> n in after.matches && after.matches[n] == s.matches[n]))
  {
  }
}
