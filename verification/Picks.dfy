/** validatePicks and safeReason of anmates-api/services/concierge.go, and Suggest of
    anmates-api/services/venue_provider.go, under any answer of the model. */
module Picks {
  import opened Wrappers
  import opened VenueSearch

  datatype Pick = Pick(id: string, reason: string)

  datatype Card = Card(
    id: string, name: string, rating: Option<real>, priceMin: Option<int>, priceMax: Option<int>,
    lat: real, lng: real, distanceM: int, reason: string)

  const GENERIC_REASON: string := "Gần điểm giữa, hợp gu 2 đứa"

  const MAX_PICKS := 3

  const MAX_REASON := 80

  // ---- Reasons -----------------------------------------------------------------------------

  predicate IsCJK(c: char) { c >= '\U{2E80}' }

  ghost predicate HasCJK(s: string) { exists i :: 0 <= i < |s| && IsCJK(s[i]) }

  method ContainsCJK(s: string) returns (found: bool)
    ensures found <==> HasCJK(s)
  {
    for i := 0 to |s|
      invariant forall j :: 0 <= j < i ==> !IsCJK(s[j])
    {
      if IsCJK(s[i]) {
        return true;
      }
    }
    return false;
  }

  ghost function SafeReason(s: string): string {
    if s == "" || HasCJK(s) then GENERIC_REASON else if |s| <= MAX_REASON then s else s[..MAX_REASON]
  }

  /** What is shown for a reason: itself, cut at 80 characters, unless it is empty or has a character
      from U+2E80 on. */
  lemma ReasonIs(s: string)
    ensures s == "" || (exists i :: 0 <= i < |s| && s[i] as int >= 0x2E80) ==>
      SafeReason(s) == "Gần điểm giữa, hợp gu 2 đứa"
    ensures s != "" && (forall i :: 0 <= i < |s| ==> s[i] as int < 0x2E80) ==>
      SafeReason(s) == if |s| <= 80 then s else s[..80]
  {
  }

  /** Whatever the model wrote, what is shown is not empty, not too long and has no CJK character;
      a reason that already is all that is shown as it is. */
  lemma ReasonsAreSafe(s: string)
    ensures SafeReason(s) != "" && |SafeReason(s)| <= MAX_REASON && !HasCJK(SafeReason(s))
    ensures s != "" && |s| <= MAX_REASON && !HasCJK(s) ==> SafeReason(s) == s
    ensures SafeReason(SafeReason(s)) == SafeReason(s)
  {
  }

  // ---- Picks -------------------------------------------------------------------------------

  /** byID[id]: a later candidate of the same id would win. */
  function Lookup(cs: seq<Candidate>, id: string): (c: Option<Candidate>)
    ensures c.Some? ==> c.value in cs && c.value.row.id == id
    ensures c.None? ==> forall x :: x in cs ==> x.row.id != id
  {
    if cs == [] then None
    else
      assert cs == cs[..|cs| - 1] + [cs[|cs| - 1]];
      if cs[|cs| - 1].row.id == id then Some(cs[|cs| - 1]) else Lookup(cs[..|cs| - 1], id)
  }

  predicate Picked(ps: seq<Pick>, id: string) { exists p :: p in ps && p.id == id }

  /** The picks that name a candidate, without repetitions. */
  function Genuine(ps: seq<Pick>, cs: seq<Candidate>): seq<Pick> {
    if ps == [] then []
    else
      var front, p := Genuine(ps[..|ps| - 1], cs), ps[|ps| - 1];
      if Lookup(cs, p.id).Some? && !Picked(front, p.id) then front + [p] else front
  }

  /** Only the id and the reason come from the model. */
  ghost function CardOf(c: Candidate, reason: string): Card {
    Card(c.row.id, c.row.name, c.row.rating, c.row.priceMin, c.row.priceMax, c.row.lat, c.row.lng,
         c.distanceM, SafeReason(reason))
  }

  ghost predicate AreCards(cards: seq<Card>, ps: seq<Pick>, cs: seq<Candidate>) {
    && |cards| == |ps|
    && forall i :: 0 <= i < |ps| ==>
      Lookup(cs, ps[i].id).Some? && cards[i] == CardOf(Lookup(cs, ps[i].id).value, ps[i].reason)
  }

  function Capped(n: nat, max: int): nat { if max <= 0 then 0 else if n < max then n else max }

  lemma {:induction false} GenuineGrows(ps: seq<Pick>, cs: seq<Candidate>, i: nat)
    requires i <= |ps|
    ensures Genuine(ps[..i], cs) <= Genuine(ps, cs)
  {
    if i == |ps| {
      assert ps[..i] == ps;
    } else {
      GenuineGrows(ps[..|ps| - 1], cs, i);
      assert ps[..|ps| - 1][..i] == ps[..i];
    }
  }

  lemma GenuineNext(ps: seq<Pick>, cs: seq<Candidate>, i: nat)
    requires i < |ps|
    ensures Genuine(ps[..i + 1], cs) ==
      Genuine(ps[..i], cs) + if Lookup(cs, ps[i].id).Some? && !Picked(Genuine(ps[..i], cs), ps[i].id) then [ps[i]] else []
  {
    assert ps[..i + 1][..i] == ps[..i];
  }

  lemma GenuineOfNone(ps: seq<Pick>, cs: seq<Candidate>)
    ensures Genuine(ps[..0], cs) == []
  {
  }

  method SafeReasonOf(s: string) returns (r: string)
    ensures r == SafeReason(s)
  {
    var cjk := ContainsCJK(s);
    if s == "" || cjk {
      return GENERIC_REASON;
    }
    return if |s| <= MAX_REASON then s else s[..MAX_REASON];
  }

  method ByID(cs: seq<Candidate>) returns (byID: map<string, Candidate>)
    ensures forall id :: id in byID <==> Lookup(cs, id).Some?
    ensures forall id :: id in byID ==> Lookup(cs, id) == Some(byID[id])
  {
    byID := map[];
    for i := 0 to |cs|
      invariant forall id :: id in byID <==> Lookup(cs[..i], id).Some?
      invariant forall id :: id in byID ==> Lookup(cs[..i], id) == Some(byID[id])
    {
      assert cs[..i + 1][..i] == cs[..i];
      byID := byID[cs[i].row.id := cs[i]];
    }
    assert cs[..|cs|] == cs;
  }

  /** The cards are the first `max` distinct ids that name candidates, in the model's order. */
  method ValidatePicks(ps: seq<Pick>, cs: seq<Candidate>, max: int) returns (out: seq<Card>)
    ensures AreCards(out, Genuine(ps, cs)[..Capped(|Genuine(ps, cs)|, max)], cs)
  {
    hide Genuine, SafeReason, Lookup;
    var byID := ByID(cs);
    GenuineOfNone(ps, cs);
    out := [];
    var seen: set<string> := {};
    for i := 0 to |ps|
      invariant AreCards(out, Genuine(ps[..i], cs), cs)
      invariant |out| <= Capped(|out|, max)
      invariant forall id :: id in seen <==> Picked(Genuine(ps[..i], cs), id)
    {
      GenuineGrows(ps, cs, i);
      if |out| >= max {
        return;
      }
      GenuineNext(ps, cs, i);
      var p := ps[i];
      if p.id in byID && p.id !in seen {
        var c := byID[p.id];
        seen := seen + {p.id};
        var reason := SafeReasonOf(p.reason);
        out := out + [Card(c.row.id, c.row.name, c.row.rating, c.row.priceMin, c.row.priceMax,
                           c.row.lat, c.row.lng, c.distanceM, reason)];
      }
    }
    assert ps[..|ps|] == ps;
  }

  /** Where the model first named an id. */
  ghost predicate FirstNamedAt(ps: seq<Pick>, i: int, p: Pick) {
    0 <= i < |ps| && ps[i] == p && forall j :: 0 <= j < i ==> ps[j].id != p.id
  }

  ghost predicate InModelOrder(ps: seq<Pick>, p: Pick, q: Pick) {
    exists i, j :: FirstNamedAt(ps, i, p) && FirstNamedAt(ps, j, q) && i < j
  }

  /** Genuine without the loop: an id is kept exactly if some pick names it and it is a candidate's,
      it is kept once, as the model first named it, and in the order of first naming. */
  lemma {:induction false} GenuineAre(ps: seq<Pick>, cs: seq<Candidate>)
    ensures forall id :: Picked(Genuine(ps, cs), id) <==> Picked(ps, id) && Lookup(cs, id).Some?
    ensures forall p :: p in Genuine(ps, cs) ==> exists i :: FirstNamedAt(ps, i, p)
    ensures forall k, l :: 0 <= k < l < |Genuine(ps, cs)| ==> InModelOrder(ps, Genuine(ps, cs)[k], Genuine(ps, cs)[l])
  {
    if ps != [] {
      var n := |ps| - 1;
      var front, last := ps[..n], ps[n];
      var before := Genuine(front, cs);
      GenuineAre(front, cs);
      assert ps == front + [last];
      assert forall j :: 0 <= j < n ==> front[j] in front;
      assert forall i, p :: FirstNamedAt(front, i, p) ==> FirstNamedAt(ps, i, p);
      assert Genuine(ps, cs) == before || (Genuine(ps, cs) == before + [last] && FirstNamedAt(ps, n, last));
      forall k, l | 0 <= k < l < |Genuine(ps, cs)|
        ensures InModelOrder(ps, Genuine(ps, cs)[k], Genuine(ps, cs)[l])
      {
        var p := before[k];
        if l < |before| {
          assert InModelOrder(front, p, before[l]);
        } else {
          assert p in before;
        }
      }
    }
  }

  /** Of several candidates with one id the last is taken. */
  lemma {:induction false} LookupIsLast(cs: seq<Candidate>, i: nat)
    requires i < |cs| && forall j :: i < j < |cs| ==> cs[j].row.id != cs[i].row.id
    ensures Lookup(cs, cs[i].row.id) == Some(cs[i])
  {
    if i < |cs| - 1 {
      LookupIsLast(cs[..|cs| - 1], i);
    }
  }

  predicate FirstNames(ps: seq<Pick>, i: int, id: string) {
    0 <= i < |ps| && ps[i].id == id && forall j :: 0 <= j < i ==> ps[j].id != id
  }

  /** A card shows its candidate's facts and the reason of the pick that first named it. */
  ghost predicate IsCardOf(card: Card, ps: seq<Pick>, cs: seq<Candidate>) {
    exists c, i ::
      && c in cs && FirstNames(ps, i, c.row.id)
      && card == Card(c.row.id, c.row.name, c.row.rating, c.row.priceMin, c.row.priceMax, c.row.lat, c.row.lng,
                      c.distanceM, SafeReason(ps[i].reason))
  }

  ghost predicate NamedBefore(ps: seq<Pick>, id: string, later: string) {
    exists i, j :: FirstNames(ps, i, id) && FirstNames(ps, j, later) && i < j
  }

  /** The cards in full: each shows a candidate with the reason of the pick that first named it; they are
      distinct, in the order of first naming, and at most `max`; and if there are fewer than that then
      every pick that names a candidate has its card. */
  lemma CardsAre(ps: seq<Pick>, cs: seq<Candidate>, max: int, cards: seq<Card>)
    requires AreCards(cards, Genuine(ps, cs)[..Capped(|Genuine(ps, cs)|, max)], cs)
    ensures |cards| <= (if max > 0 then max else 0)
    ensures forall k :: 0 <= k < |cards| ==> IsCardOf(cards[k], ps, cs)
    ensures forall k, l :: 0 <= k < l < |cards| ==> NamedBefore(ps, cards[k].id, cards[l].id)
    ensures |cards| < max ==>
      forall p, c :: p in ps && c in cs && c.row.id == p.id ==> exists k :: 0 <= k < |cards| && cards[k].id == p.id
  {
    var kept := Genuine(ps, cs);
    GenuineAre(ps, cs);
    hide Genuine, SafeReason, Lookup;
    forall k | 0 <= k < |cards|
      ensures IsCardOf(cards[k], ps, cs)
    {
      var i :| FirstNamedAt(ps, i, kept[k]);
      var c := Lookup(cs, kept[k].id).value;
      assert c in cs && FirstNames(ps, i, c.row.id);
    }
    forall k, l | 0 <= k < l < |cards|
      ensures NamedBefore(ps, cards[k].id, cards[l].id)
    {
      assert InModelOrder(ps, kept[k], kept[l]);
      var i, j :| FirstNamedAt(ps, i, kept[k]) && FirstNamedAt(ps, j, kept[l]) && i < j;
      assert FirstNames(ps, i, cards[k].id) && FirstNames(ps, j, cards[l].id);
    }
    forall p, c | |cards| < max && p in ps && c in cs && c.row.id == p.id
      ensures exists k :: 0 <= k < |cards| && cards[k].id == p.id
    {
      assert Picked(ps, p.id) && Lookup(cs, p.id).Some?;
      assert Picked(kept, p.id);
      var q :| q in kept && q.id == p.id;
      var k :| 0 <= k < |kept| && kept[k] == q;
      assert cards[k].id == q.id;
    }
  }

  // ---- Suggest -----------------------------------------------------------------------------

  datatype Ranking = RankError | Ranked(intro: string, picks: seq<Pick>)

  datatype Suggestion = Failed | Suggestion(intro: string, cards: seq<Card>)

  method Suggest(rows: seq<Row>, dist: Row -> real, radiusM: int, limit: int, ranking: Ranking)
    returns (s: Suggestion)
    ensures (var cs := Search(rows, dist, radiusM, limit);
             && (s.Failed? <==> cs != [] && ranking.RankError?)
             && (cs == [] ==> s == Suggestion("", []))
             && (cs != [] && ranking.Ranked? ==>
                   && s.intro == ranking.intro
                   && AreCards(s.cards, Genuine(ranking.picks, cs)[..Capped(|Genuine(ranking.picks, cs)|, MAX_PICKS)], cs)))
  {
    var candidates := SearchCandidates(rows, dist, radiusM, limit);
    if |candidates| == 0 {
      return Suggestion("", []);
    }
    if ranking.RankError? {
      return Failed;
    }
    var picks := ValidatePicks(ranking.picks, candidates, MAX_PICKS);
    return Suggestion(ranking.intro, picks);
  }

  /** A card shows the facts of a row within the radius, which is among the nearest candidates. */
  ghost predicate ShowsRow(card: Card, r: Row, dist: Row -> real) {
    && card.id == r.id && card.name == r.name && card.rating == r.rating
    && card.priceMin == r.priceMin && card.priceMax == r.priceMax && card.lat == r.lat && card.lng == r.lng
    && card.distanceM == dist(r).Floor
  }

  ghost predicate IsReal(card: Card, rows: seq<Row>, dist: Row -> real, radiusM: int, limit: int) {
    exists c :: c in Search(rows, dist, radiusM, limit) && c.row in rows && ShowsRow(card, c.row, dist)
      && dist(c.row) <= radiusM as real
  }

  /** For every ranking: at most three cards, no venue twice, each a real venue in the radius and
      among the `limit` nearest. */
  lemma CardsAreReal(rows: seq<Row>, dist: Row -> real, radiusM: int, limit: int, ps: seq<Pick>, cards: seq<Card>)
    requires (var cs := Search(rows, dist, radiusM, limit);
              AreCards(cards, Genuine(ps, cs)[..Capped(|Genuine(ps, cs)|, MAX_PICKS)], cs))
    ensures |cards| <= MAX_PICKS && forall i, j :: 0 <= i < j < |cards| ==> cards[i].id != cards[j].id
    ensures forall i :: 0 <= i < |cards| ==> IsReal(cards[i], rows, dist, radiusM, limit)
    ensures AreNearest(Search(rows, dist, radiusM, limit), InRadius(rows, dist, radiusM), limit)
  {
    var cs := Search(rows, dist, radiusM, limit);
    var kept := Genuine(ps, cs)[..Capped(|Genuine(ps, cs)|, MAX_PICKS)];
    SearchFindsNearest(rows, dist, radiusM, limit);
    GenuineAre(ps, cs);
    forall i, j | 0 <= i < j < |cards|
      ensures cards[i].id != cards[j].id
    {
      assert InModelOrder(ps, kept[i], kept[j]);
    }
    forall i | 0 <= i < |cards|
      ensures IsReal(cards[i], rows, dist, radiusM, limit)
    {
      var c := Lookup(cs, kept[i].id).value;
      FoundIsInRadius(rows, dist, radiusM, limit, c);
    }
  }

  lemma FoundIsInRadius(rows: seq<Row>, dist: Row -> real, radiusM: int, limit: int, c: Candidate)
    requires c in Search(rows, dist, radiusM, limit)
    ensures c.row in rows && dist(c.row) <= radiusM as real && c.distanceM == dist(c.row).Floor
  {
    var all := InRadius(rows, dist, radiusM);
    SortStableSorts(all);
    assert c in multiset(SortStable(all));
    InRadiusAre(rows, dist, radiusM, c);
  }
}
