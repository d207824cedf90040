/** ListVenuesPage and pageOf of anmates-api/services/venue_catalog.go, and the paging arithmetic of
    anmates-api/handlers/venue_catalog.go. Text matching and distances are parameters. */
module Catalog {
  import opened Ordering

  datatype Venue = Venue(id: nat, name: string, address: string, tags: seq<string>, lat: int, lng: int)

  /** `matches` stands for the cuisine and text filters, `distanceM` for the whole metres from the
      query's centre. */
  datatype Query = Query(hasCenter: bool, radiusM: int, matches: Venue -> bool, distanceM: Venue -> int)

  predicate Keeps(q: Query, v: Venue) {
    q.matches(v) && !(q.hasCenter && q.radiusM > 0 && q.distanceM(v) > q.radiusM)
  }

  /** Nearest first around a centre, by name otherwise; ties by id. */
  predicate Precedes(q: Query, v: Venue, w: Venue) {
    if q.hasCenter then
      if q.distanceM(v) != q.distanceM(w) then q.distanceM(v) < q.distanceM(w) else v.id < w.id
    else
      if v.name != w.name then Before(v.name, w.name) else v.id < w.id
  }

  function Order(q: Query): (Venue, Venue) -> bool { (v, w) => Precedes(q, v, w) }

  function Kept(q: Query, rows: seq<Venue>): (kept: seq<Venue>)
    ensures forall v :: v in kept <==> v in rows && Keeps(q, v)
  {
    if rows == [] then []
    else
      assert rows == rows[..|rows| - 1] + [rows[|rows| - 1]];
      Kept(q, rows[..|rows| - 1]) + if Keeps(q, rows[|rows| - 1]) then [rows[|rows| - 1]] else []
  }

  /** Everything the query selects, in the order it is paged through. */
  function Listing(q: Query, rows: seq<Venue>): seq<Venue> { Sort(Order(q), Kept(q, rows)) }

  function PageOf<T>(all: seq<T>, offset: int, limit: int): seq<T> {
    if offset > 0 && offset >= |all| then []
    else
      var rest := if offset > 0 then all[offset..] else all;
      if limit > 0 && |rest| > limit then rest[..limit] else rest
  }

  method ListVenuesPage(q: Query, rows: seq<Venue>, offset: int, limit: int)
    returns (page: seq<Venue>, total: nat)
    ensures page == PageOf(Listing(q, rows), offset, limit) && total == |Listing(q, rows)|
    ensures (var from := if offset <= 0 then 0 else if offset < total then offset else total;
             var to := if limit > 0 && from + limit < total then from + limit else total;
             page == Listing(q, rows)[from..to])
  {
    var out := [];
    for i := 0 to |rows|
      invariant out == Kept(q, rows[..i])
    {
      assert rows[..i + 1][..i] == rows[..i];
      var v := rows[i];
      if q.matches(v) {
        if !(q.hasCenter && q.radiusM > 0 && q.distanceM(v) > q.radiusM) {
          out := out + [v];
        }
      }
    }
    assert rows[..|rows|] == rows;
    out := Sort(Order(q), out);
    page, total := PageOf(out, offset, limit), |out|;
  }

  // ---- One listing whatever order the rows come in -----------------------------------------

  ghost predicate UniqueIds(rows: seq<Venue>) { forall i, j :: 0 <= i < j < |rows| ==> rows[i].id != rows[j].id }

  lemma OrderIsStrict(q: Query)
    ensures StrictOrder(Order(q))
  {
    BeforeIsStrict();
    var less := Order(q);
    assert forall v: Venue :: !less(v, v);
    assert forall v: Venue, w, x | less(v, w) && less(w, x) :: less(v, x);
  }

  lemma {:induction false} KeptComparable(q: Query, rows: seq<Venue>)
    requires UniqueIds(rows)
    ensures Comparable(Order(q), Kept(q, rows))
  {
    if rows != [] {
      var front, last := rows[..|rows| - 1], rows[|rows| - 1];
      KeptComparable(q, front);
      forall i | 0 <= i < |Kept(q, front)|
        ensures Order(q)(Kept(q, front)[i], last) || Order(q)(last, Kept(q, front)[i])
      {
        var v := Kept(q, front)[i];
        assert v in front;
        BeforeIsTotal(v.name, last.name);
      }
    }
  }

  /** The SQL has no ORDER BY: the listing is the same for every order of the rows. */
  lemma ListingIgnoresRowOrder(q: Query, rows: seq<Venue>, others: seq<Venue>)
    requires UniqueIds(rows) && UniqueIds(others) && SameElements(rows, others)
    ensures Listing(q, rows) == Listing(q, others)
  {
    OrderIsStrict(q);
    KeptComparable(q, rows);
    KeptComparable(q, others);
    SortForgetsOrder(Order(q), Kept(q, rows), Kept(q, others));
  }

  /** Around a centre the nearer comes first, otherwise the one whose name comes first; ties by id. */
  predicate InOrder(q: Query, v: Venue, w: Venue) {
    && (q.hasCenter ==> q.distanceM(v) < q.distanceM(w) || (q.distanceM(v) == q.distanceM(w) && v.id < w.id))
    && (!q.hasCenter ==> Before(v.name, w.name) || (v.name == w.name && v.id < w.id))
  }

  /** It holds each selected venue once, in strictly increasing order. */
  lemma ListingIsSorted(q: Query, rows: seq<Venue>)
    requires UniqueIds(rows)
    ensures Ascending(Order(q), Listing(q, rows))
    ensures forall v :: v in Listing(q, rows) <==>
      v in rows && q.matches(v) && (q.hasCenter && q.radiusM > 0 ==> q.distanceM(v) <= q.radiusM)
    ensures forall i, j :: 0 <= i < j < |Listing(q, rows)| ==> InOrder(q, Listing(q, rows)[i], Listing(q, rows)[j])
  {
    OrderIsStrict(q);
    KeptComparable(q, rows);
    SortAscends(Order(q), Kept(q, rows));
    SortKeepsElements(Order(q), Kept(q, rows));
  }

  // ---- Pages ------------------------------------------------------------------------------

  /** A page and has_more, as the handler answers a request whose query returned `rows`. */
  function Page(q: Query, rows: seq<Venue>, offset: nat, limit: nat): seq<Venue> {
    PageOf(Listing(q, rows), offset, limit)
  }

  predicate HasMore(q: Query, rows: seq<Venue>, offset: nat, limit: nat) {
    offset + |Page(q, rows, offset, limit)| < |Listing(q, rows)|
  }

  /** What a client holds after fetching one page per element of `answers`, each from its own query,
      asking every time from where it has got to. */
  function Fetched(q: Query, answers: seq<seq<Venue>>, limit: nat): seq<Venue> {
    if answers == [] then []
    else
      var before := Fetched(q, answers[..|answers| - 1], limit);
      before + Page(q, answers[|answers| - 1], |before|, limit)
  }

  ghost predicate SameRows(rows: seq<Venue>, answers: seq<seq<Venue>>) {
    forall k :: 0 <= k < |answers| ==> UniqueIds(answers[k]) && SameElements(rows, answers[k])
  }

  function Min(a: int, b: int): int { if a < b then a else b }

  lemma NextPage<T>(all: seq<T>, have: nat, limit: nat)
    requires have <= |all| && limit > 0
    ensures all[..have] + PageOf(all, have, limit) == all[..Min(have + limit, |all|)]
    ensures have + |PageOf(all, have, limit)| == Min(have + limit, |all|)
  {
  }

  lemma Advance(n: nat, limit: nat, total: nat)
    requires n > 0
    ensures 0 <= Min((n - 1) * limit, total) <= total
    ensures Min(Min((n - 1) * limit, total) + limit, total) == Min(n * limit, total)
  {
  }

  /** Pages fetched by separate queries tile the listing: no venue is repeated or skipped. */
  lemma {:induction false} PagesTile(q: Query, rows: seq<Venue>, answers: seq<seq<Venue>>, limit: nat)
    requires UniqueIds(rows) && SameRows(rows, answers) && limit > 0
    ensures 0 <= |answers| * limit
    ensures Fetched(q, answers, limit) == Listing(q, rows)[..Min(|answers| * limit, |Listing(q, rows)|)]
  {
    hide Listing, PageOf, UniqueIds, SameElements, Min;
    var all := Listing(q, rows);
    Advance(|answers| + 1, limit, |all|);
    if answers != [] {
      var n := |answers| - 1;
      PagesTile(q, rows, answers[..n], limit);
      ListingIgnoresRowOrder(q, rows, answers[n]);
      Advance(n + 1, limit, |all|);
      NextPage(all, Min(n * limit, |all|), limit);
    } else {
      assert all[..Min(0, |all|)] == [] by { MinZero(|all|); }
    }
  }

  lemma MinZero(n: nat)
    ensures Min(0, n) == 0
  {
  }

  /** has_more says, after every page, exactly whether something is still missing. */
  lemma HasMoreIsExact(q: Query, rows: seq<Venue>, answers: seq<seq<Venue>>, last: seq<Venue>, limit: nat)
    requires UniqueIds(rows) && SameRows(rows, answers + [last]) && limit > 0
    ensures HasMore(q, last, |Fetched(q, answers, limit)|, limit) <==> Fetched(q, answers + [last], limit) != Listing(q, rows)
  {
    assert (answers + [last])[..|answers|] == answers && (answers + [last])[|answers|] == last;
    assert SameRows(rows, answers);
    PagesTile(q, rows, answers, limit);
    PagesTile(q, rows, answers + [last], limit);
    ListingIgnoresRowOrder(q, rows, last);
    hide Listing, UniqueIds, SameElements, PageOf;
    NextPage(Listing(q, rows), |Fetched(q, answers, limit)|, limit);
  }

  /** Following has_more reaches the whole listing within total / limit + 1 requests. */
  lemma FollowingHasMoreEnds(q: Query, rows: seq<Venue>, answers: seq<seq<Venue>>, limit: nat)
    requires UniqueIds(rows) && SameRows(rows, answers) && limit > 0
    requires |answers| > |Listing(q, rows)| / limit
    ensures Fetched(q, answers, limit) == Listing(q, rows)
  {
    PagesTile(q, rows, answers, limit);
    hide Listing, UniqueIds, SameElements, Fetched;
    EnoughPages(|answers|, limit, |Listing(q, rows)|);
  }

  lemma EnoughPages(n: nat, limit: nat, total: nat)
    requires limit > 0 && n > total / limit
    ensures Min(n * limit, total) == total
  {
    assert total < (total / limit + 1) * limit;
    MulMonotone(total / limit + 1, n, limit);
  }

  lemma MulMonotone(a: nat, b: nat, c: nat)
    requires a <= b
    ensures a * c <= b * c
  {
  }
}
