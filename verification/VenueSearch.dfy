/** The candidate search and the anti-hallucination filter: SearchCandidates and
    sortCandidatesByDistance (anmates-api/services/venue.go), validatePicks and safeReason
    (anmates-api/services/concierge.go), composed by Suggest (anmates-api/services/venue_provider.go).
    The model's ranking is arbitrary; great-circle distance is a parameter. */
module VenueSearch {
  import opened Wrappers

  datatype Row = Row(
    id: string, name: string, lat: real, lng: real,
    priceMin: Option<int>, priceMax: Option<int>, rating: Option<real>)

  datatype Candidate = Candidate(row: Row, distanceM: int)

  // ---- Stable insertion sort ---------------------------------------------------------------

  function InsertStable(s: seq<Candidate>, c: Candidate): seq<Candidate> {
    if s == [] || s[|s| - 1].distanceM <= c.distanceM then s + [c]
    else InsertStable(s[..|s| - 1], c) + [s[|s| - 1]]
  }

  function SortStable(s: seq<Candidate>): seq<Candidate> {
    if s == [] then [] else InsertStable(SortStable(s[..|s| - 1]), s[|s| - 1])
  }

  ghost predicate NearestFirst(s: seq<Candidate>) {
    forall i, j :: 0 <= i < j < |s| ==> s[i].distanceM <= s[j].distanceM
  }

  /** The candidates at distance d, in order. */
  function AtDistance(s: seq<Candidate>, d: int): seq<Candidate> {
    if s == [] then []
    else AtDistance(s[..|s| - 1], d) + if s[|s| - 1].distanceM == d then [s[|s| - 1]] else []
  }

  lemma {:induction false} InsertStablePermutes(s: seq<Candidate>, c: Candidate)
    ensures multiset(InsertStable(s, c)) == multiset(s + [c])
  {
    if s != [] && s[|s| - 1].distanceM > c.distanceM {
      var front, last := s[..|s| - 1], s[|s| - 1];
      InsertStablePermutes(front, c);
      assert s == front + [last];
    }
  }

  lemma AppendSorts(s: seq<Candidate>, c: Candidate)
    requires NearestFirst(s) && forall x :: x in s ==> x.distanceM <= c.distanceM
    ensures NearestFirst(s + [c])
  {
  }

  lemma {:induction false} InsertStableSorts(s: seq<Candidate>, c: Candidate)
    requires NearestFirst(s)
    ensures NearestFirst(InsertStable(s, c))
  {
    if s == [] || s[|s| - 1].distanceM <= c.distanceM {
      AppendSorts(s, c);
    } else {
      var front, last := s[..|s| - 1], s[|s| - 1];
      InsertStableSorts(front, c);
      InsertStablePermutes(front, c);
      forall x | x in InsertStable(front, c)
        ensures x.distanceM <= last.distanceM
      {
        assert x in multiset(InsertStable(front, c));
        assert x in front + [c];
      }
      hide NearestFirst;
      AppendSorts(InsertStable(front, c), last);
    }
  }

  lemma {:induction false} InsertStableIsStable(s: seq<Candidate>, c: Candidate, d: int)
    requires NearestFirst(s)
    ensures AtDistance(InsertStable(s, c), d) == AtDistance(s + [c], d)
  {
    assert (s + [c])[..|s|] == s;
    if s != [] && s[|s| - 1].distanceM > c.distanceM {
      var front, last := s[..|s| - 1], s[|s| - 1];
      InsertStableIsStable(front, c, d);
      assert (front + [c])[..|front|] == front;
      assert InsertStable(s, c)[..|InsertStable(s, c)| - 1] == InsertStable(front, c);
    }
  }

  /** Sorted, a permutation, and stable. */
  lemma {:induction false} SortStableSorts(s: seq<Candidate>)
    ensures NearestFirst(SortStable(s)) && multiset(SortStable(s)) == multiset(s)
    ensures forall d :: AtDistance(SortStable(s), d) == AtDistance(s, d)
  {
    if s != [] {
      var front, last := s[..|s| - 1], s[|s| - 1];
      SortStableSorts(front);
      InsertStableSorts(SortStable(front), last);
      InsertStablePermutes(SortStable(front), last);
      assert s == front + [last];
      hide NearestFirst, InsertStable;
      forall d
        ensures AtDistance(SortStable(s), d) == AtDistance(s, d)
      {
        InsertStableIsStable(SortStable(front), last, d);
        AtDistanceAfter(SortStable(front), last, d);
        AtDistanceAfter(front, last, d);
      }
    }
  }

  lemma AtDistanceAfter(s: seq<Candidate>, c: Candidate, d: int)
    ensures AtDistance(s + [c], d) == if c.distanceM == d then AtDistance(s, d) + [c] else AtDistance(s, d)
  {
    assert (s + [c])[..|s + [c]| - 1] == s;
  }

  lemma {:induction false} NoneAtDistance(s: seq<Candidate>, d: int)
    ensures AtDistance(s, d) == [] <==> forall i :: 0 <= i < |s| ==> s[i].distanceM != d
  {
    if s != [] {
      NoneAtDistance(s[..|s| - 1], d);
    }
  }

  ghost predicate SameAtDistances(s: seq<Candidate>, t: seq<Candidate>) {
    forall d :: AtDistance(s, d) == AtDistance(t, d)
  }

  lemma LastIsNotNearer(s: seq<Candidate>, t: seq<Candidate>)
    requires NearestFirst(t) && SameAtDistances(s, t) && s != []
    ensures t != [] && s[|s| - 1].distanceM <= t[|t| - 1].distanceM
  {
    var d := s[|s| - 1].distanceM;
    NoneAtDistance(s, d);
    NoneAtDistance(t, d);
  }

  /** Nothing else is both sorted and stable. */
  lemma {:induction false} StableSortIsUnique(s: seq<Candidate>, t: seq<Candidate>)
    requires NearestFirst(s) && NearestFirst(t) && SameAtDistances(s, t)
    ensures s == t
  {
    if s == [] {
      if t != [] {
        LastIsNotNearer(t, s);
      }
    } else {
      LastIsNotNearer(s, t);
      LastIsNotNearer(t, s);
      var front, rest := s[..|s| - 1], t[..|t| - 1];
      var a, b := s[|s| - 1], t[|t| - 1];
      assert s == front + [a] && t == rest + [b];
      assert a == b by {
        AtDistanceAfter(front, a, a.distanceM);
        AtDistanceAfter(rest, b, a.distanceM);
        LastsAgree(AtDistance(front, a.distanceM), a, AtDistance(rest, a.distanceM), b);
      }
      forall d
        ensures AtDistance(front, d) == AtDistance(rest, d)
      {
        assert AtDistance(s, d) == AtDistance(t, d);
        AtDistanceAfter(front, a, d);
        AtDistanceAfter(rest, a, d);
        LastsAgree(AtDistance(front, d), a, AtDistance(rest, d), a);
      }
      StableSortIsUnique(front, rest);
    }
  }

  lemma LastsAgree(s: seq<Candidate>, a: Candidate, t: seq<Candidate>, b: Candidate)
    ensures s + [a] == t + [b] ==> s == t && a == b
  {
    if s + [a] == t + [b] {
      assert (s + [a])[..|s|] == s && (t + [b])[..|t|] == t;
      assert (s + [a])[|s|] == a && (t + [b])[|t|] == b;
    }
  }

  // One swap of the inner loop, and its end.

  function Sifting(base: seq<Candidate>, c: Candidate, j: nat, rest: seq<Candidate>): seq<Candidate>
    requires j <= |base|
  {
    base[..j] + [c] + base[j..] + rest
  }

  lemma SwapSifts(base: seq<Candidate>, c: Candidate, j: nat, rest: seq<Candidate>)
    requires 0 < j <= |base|
    ensures Sifting(base, c, j, rest)[j := base[j - 1]][j - 1 := c] == Sifting(base, c, j - 1, rest)
  {
  }

  lemma SiftingAt(base: seq<Candidate>, c: Candidate, j: nat, rest: seq<Candidate>)
    requires j <= |base|
    ensures (var s := Sifting(base, c, j, rest);
             |s| == |base| + 1 + |rest| && s[j] == c && (j > 0 ==> s[j - 1] == base[j - 1]))
    ensures j == |base| ==> Sifting(base, c, j, rest) == base + [c] + rest
    ensures Sifting(base, c, j, rest) == Sifting(base, c, j, []) + rest
  {
  }

  lemma {:induction false} SiftingEnds(base: seq<Candidate>, c: Candidate, j: nat)
    requires j <= |base| && (j > 0 ==> base[j - 1].distanceM <= c.distanceM)
    requires forall k :: j <= k < |base| ==> c.distanceM < base[k].distanceM
    ensures Sifting(base, c, j, []) == InsertStable(base, c)
  {
    if j < |base| {
      var front := base[..|base| - 1];
      SiftingEnds(front, c, j);
      assert Sifting(base, c, j, []) == Sifting(front, c, j, []) + [base[|base| - 1]];
    }
  }

  lemma SortNext(s: seq<Candidate>, i: nat)
    requires i < |s|
    ensures SortStable(s[..i + 1]) == InsertStable(SortStable(s[..i]), s[i])
    ensures i == 0 ==> SortStable(s[..1]) == [s[0]]
    ensures |SortStable(s[..i])| == i
  {
    assert s[..i + 1][..i] == s[..i];
    SortStableSorts(s[..i]);
    assert |SortStable(s[..i])| == |multiset(SortStable(s[..i]))| == i;
  }

  method SortCandidatesByDistance(cs: array<Candidate>)
    modifies cs
    ensures cs[..] == SortStable(old(cs[..]))
  {
    hide SortStable, InsertStable;
    ghost var was := cs[..];
    var i := 1;
    if cs.Length > 0 {
      SortNext(was, 0);
    }
    while i < cs.Length
      invariant 1 <= i && (i <= cs.Length || cs.Length == 0)
      invariant cs.Length > 0 ==> cs[..] == SortStable(was[..i]) + was[i..]
    {
      SortNext(was, i);
      assert was[i..] == [was[i]] + was[i + 1..];
      SplitAt(SortStable(was[..i]), was[i], was[i + 1..]);
      SiftDown(cs, i);
      i := i + 1;
    }
    if cs.Length == 0 {
      SortNone(was);
    } else {
      assert was[..i] == was && was[i..] == [];
    }
  }

  lemma SplitAt(base: seq<Candidate>, c: Candidate, rest: seq<Candidate>)
    ensures var s := base + ([c] + rest);
      s[..|base|] == base && s[|base|] == c && s[|base| + 1..] == rest
  {
  }

  /** The inner loop. */
  method SiftDown(cs: array<Candidate>, i: nat)
    requires i < cs.Length
    modifies cs
    ensures cs[..] == InsertStable(old(cs[..i]), old(cs[i])) + old(cs[i + 1..])
  {
    ghost var base, c, rest := cs[..i], cs[i], cs[i + 1..];
    assert cs[..] == base + [c] + rest;
    hide InsertStable, Sifting;
    var j := i;
    SiftingAt(base, c, j, rest);
    while j > 0 && cs[j].distanceM < cs[j - 1].distanceM
      invariant 0 <= j <= i && cs[..] == Sifting(base, c, j, rest)
      invariant cs[j] == c && (j > 0 ==> cs[j - 1] == base[j - 1])
      invariant forall k :: j <= k < i ==> c.distanceM < base[k].distanceM
    {
      SwapSifts(base, c, j, rest);
      SiftingAt(base, c, j - 1, rest);
      ghost var before := cs[..];
      assert before[j] == cs[j] && before[j - 1] == cs[j - 1];
      cs[j], cs[j - 1] := cs[j - 1], cs[j];
      assert cs[..] == before[j := before[j - 1]][j - 1 := before[j]];
      j := j - 1;
      assert cs[..][j] == cs[j] && (j > 0 ==> cs[..][j - 1] == cs[j - 1]);
    }
    SiftingEnds(base, c, j);
    SiftingAt(base, c, j, rest);
  }

  lemma SortNone(s: seq<Candidate>)
    requires |s| == 0
    ensures SortStable(s) == s
  {
  }

  // ---- SearchCandidates --------------------------------------------------------------------

  function InRadius(rows: seq<Row>, dist: Row -> real, radiusM: int): seq<Candidate> {
    if rows == [] then []
    else
      var r := rows[|rows| - 1];
      InRadius(rows[..|rows| - 1], dist, radiusM) +
      if dist(r) > radiusM as real then [] else [Candidate(r, dist(r).Floor)]
  }

  function Cut<T>(s: seq<T>, limit: int): seq<T> { if limit > 0 && |s| > limit then s[..limit] else s }

  function Search(rows: seq<Row>, dist: Row -> real, radiusM: int, limit: int): seq<Candidate> {
    Cut(SortStable(InRadius(rows, dist, radiusM)), limit)
  }

  method SearchCandidates(rows: seq<Row>, dist: Row -> real, radiusM: int, limit: int)
    returns (out: seq<Candidate>)
    ensures out == Search(rows, dist, radiusM, limit)
  {
    out := [];
    for i := 0 to |rows|
      invariant out == InRadius(rows[..i], dist, radiusM)
    {
      assert rows[..i + 1][..i] == rows[..i];
      var d := dist(rows[i]);
      if d > radiusM as real {
        continue;
      }
      out := out + [Candidate(rows[i], d.Floor)];
    }
    assert rows[..|rows|] == rows;
    var cs := new Candidate[|out|](i requires 0 <= i < |out| => out[i]);
    assert cs[..] == out;
    SortCandidatesByDistance(cs);
    out := cs[..];
    if limit > 0 && |out| > limit {
      out := out[..limit];
    }
  }

  lemma {:induction false} InRadiusAre(rows: seq<Row>, dist: Row -> real, radiusM: int, c: Candidate)
    ensures c in InRadius(rows, dist, radiusM) <==>
      c.row in rows && dist(c.row) <= radiusM as real && c.distanceM == dist(c.row).Floor
  {
    if rows != [] {
      InRadiusAre(rows[..|rows| - 1], dist, radiusM, c);
      assert rows == rows[..|rows| - 1] + [rows[|rows| - 1]];
    }
  }

  /** Row by row, in the rows' order; a row on the radius is in it. */
  lemma InRadiusNext(rows: seq<Row>, r: Row, dist: Row -> real, radiusM: int)
    ensures InRadius([], dist, radiusM) == []
    ensures dist(r) <= radiusM as real ==>
      InRadius(rows + [r], dist, radiusM) == InRadius(rows, dist, radiusM) + [Candidate(r, dist(r).Floor)]
    ensures dist(r) > radiusM as real ==> InRadius(rows + [r], dist, radiusM) == InRadius(rows, dist, radiusM)
  {
    assert (rows + [r])[..|rows|] == rows;
  }

  /** `found` are `limit` of the candidates `all` (or all of them), and none that is left is nearer. */
  ghost predicate AreNearest(found: seq<Candidate>, all: seq<Candidate>, limit: int) {
    && |found| == (if limit > 0 && |all| > limit then limit else |all|)
    && exists left :: multiset(found) + multiset(left) == multiset(all) && NoneNearer(found, left)
  }

  ghost predicate NoneNearer(found: seq<Candidate>, left: seq<Candidate>) {
    forall c, l :: c in found && l in left ==> c.distanceM <= l.distanceM
  }

  lemma PrefixIsNearest(sorted: seq<Candidate>, n: nat)
    requires NearestFirst(sorted) && n <= |sorted|
    ensures NoneNearer(sorted[..n], sorted[n..]) && multiset(sorted[..n]) + multiset(sorted[n..]) == multiset(sorted)
  {
    assert sorted == sorted[..n] + sorted[n..];
  }

  lemma CutIsNearest(sorted: seq<Candidate>, all: seq<Candidate>, limit: int)
    requires NearestFirst(sorted) && multiset(sorted) == multiset(all)
    ensures AreNearest(Cut(sorted, limit), all, limit) && NearestFirst(Cut(sorted, limit))
  {
    assert |sorted| == |multiset(sorted)| == |all|;
    PrefixIsNearest(sorted, |Cut(sorted, limit)|);
    assert sorted[..|sorted|] == sorted;
  }

  lemma SearchFindsNearest(rows: seq<Row>, dist: Row -> real, radiusM: int, limit: int)
    ensures AreNearest(Search(rows, dist, radiusM, limit), InRadius(rows, dist, radiusM), limit)
    ensures NearestFirst(Search(rows, dist, radiusM, limit))
  {
    SortStableSorts(InRadius(rows, dist, radiusM));
    CutIsNearest(SortStable(InRadius(rows, dist, radiusM)), InRadius(rows, dist, radiusM), limit);
  }
}
