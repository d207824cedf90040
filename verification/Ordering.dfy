/** Sorting by a strict order, and the order of Go's sort.Strings. */
module Ordering {
  ghost predicate StrictOrder<T(!new)>(less: (T, T) -> bool) {
    && (forall x :: !less(x, x))
    && (forall x, y, z :: less(x, y) && less(y, z) ==> less(x, z))
  }

  /** Any two elements of s are ordered one way or the other. */
  ghost predicate Comparable<T>(less: (T, T) -> bool, s: seq<T>) {
    forall i, j :: 0 <= i < j < |s| ==> less(s[i], s[j]) || less(s[j], s[i])
  }

  ghost predicate Ascending<T(!new)>(less: (T, T) -> bool, s: seq<T>) {
    forall i, j :: 0 <= i < j < |s| ==> less(s[i], s[j])
  }

  ghost predicate Distinct<T>(s: seq<T>) { forall i, j :: 0 <= i < j < |s| ==> s[i] != s[j] }

  ghost predicate SameElements<T(!new)>(s: seq<T>, t: seq<T>) { forall x :: x in s <==> x in t }

  lemma HasElements<T(!new)>(s: seq<T>, t: seq<T>)
    requires SameElements(s, t) && s != []
    ensures t != []
  {
    assert s[0] in t;
  }

  /** An ascending sequence is determined by its elements. */
  lemma {:induction false} AscendingIsUnique<T(!new)>(less: (T, T) -> bool, s: seq<T>, t: seq<T>)
    requires StrictOrder(less) && Ascending(less, s) && Ascending(less, t) && SameElements(s, t)
    ensures s == t
  {
    if s == [] {
      if t != [] {
        HasElements(t, s);
      }
    } else {
      HasElements(s, t);
      assert s[0] in t && t[0] in s;
      assert s[0] == t[0];
      forall x
        ensures x in s[1..] <==> x in t[1..]
      {
        assert x in s <==> x == s[0] || x in s[1..];
        assert x in t <==> x == t[0] || x in t[1..];
      }
      AscendingIsUnique(less, s[1..], t[1..]);
      assert s == [s[0]] + s[1..] && t == [t[0]] + t[1..];
    }
  }

  function Insert<T>(less: (T, T) -> bool, s: seq<T>, x: T): seq<T> {
    if s == [] || less(x, s[0]) then [x] + s else [s[0]] + Insert(less, s[1..], x)
  }

  function Sort<T>(less: (T, T) -> bool, s: seq<T>): seq<T> {
    if s == [] then [] else Insert(less, Sort(less, s[1..]), s[0])
  }

  lemma {:induction false} InsertAdds<T>(less: (T, T) -> bool, s: seq<T>, x: T)
    ensures multiset(Insert(less, s, x)) == multiset(s) + multiset{x}
  {
    if s != [] && !less(x, s[0]) {
      InsertAdds(less, s[1..], x);
      assert s == [s[0]] + s[1..];
    }
  }

  lemma {:induction false} InsertAscends<T(!new)>(less: (T, T) -> bool, s: seq<T>, x: T)
    requires StrictOrder(less) && Ascending(less, s)
    requires forall y :: y in s ==> less(x, y) || less(y, x)
    ensures Ascending(less, Insert(less, s, x))
  {
    if s != [] && !less(x, s[0]) {
      InsertAscends(less, s[1..], x);
      var rest := Insert(less, s[1..], x);
      InsertAdds(less, s[1..], x);
      forall j | 0 <= j < |rest|
        ensures less(s[0], rest[j])
      {
        assert rest[j] in multiset(rest);
      }
    }
  }

  lemma {:induction false} SortPermutes<T>(less: (T, T) -> bool, s: seq<T>)
    ensures multiset(Sort(less, s)) == multiset(s)
  {
    if s != [] {
      SortPermutes(less, s[1..]);
      InsertAdds(less, Sort(less, s[1..]), s[0]);
      assert s == [s[0]] + s[1..];
    }
  }

  lemma SortKeepsElements<T(!new)>(less: (T, T) -> bool, s: seq<T>)
    ensures SameElements(Sort(less, s), s)
  {
    SortPermutes(less, s);
    forall x
      ensures x in Sort(less, s) <==> x in s
    {
      assert x in multiset(Sort(less, s)) <==> x in multiset(s);
    }
  }

  lemma {:induction false} SortAscends<T(!new)>(less: (T, T) -> bool, s: seq<T>)
    requires StrictOrder(less) && Comparable(less, s)
    ensures Ascending(less, Sort(less, s))
  {
    if s != [] {
      SortAscends(less, s[1..]);
      SortKeepsElements(less, s[1..]);
      assert forall y :: y in s[1..] ==> less(s[0], y) || less(y, s[0]);
      InsertAscends(less, Sort(less, s[1..]), s[0]);
    }
  }

  /** Sorting forgets the order its input came in. */
  lemma SortForgetsOrder<T(!new)>(less: (T, T) -> bool, s: seq<T>, t: seq<T>)
    requires StrictOrder(less) && Comparable(less, s) && Comparable(less, t) && SameElements(s, t)
    ensures Sort(less, s) == Sort(less, t)
  {
    SortAscends(less, s);
    SortAscends(less, t);
    SortKeepsElements(less, s);
    SortKeepsElements(less, t);
    AscendingIsUnique(less, Sort(less, s), Sort(less, t));
  }

  // ---- Strings -----------------------------------------------------------------------------

  /** Lexicographic order by code point, which is the byte order of UTF-8. */
  predicate Before(s: string, t: string) {
    t != [] && (s == [] || s[0] < t[0] || (s[0] == t[0] && Before(s[1..], t[1..])))
  }

  lemma {:induction false} BeforeIsTotal(s: string, t: string)
    ensures Before(s, t) || Before(t, s) || s == t
    ensures !(Before(s, t) && Before(t, s))
    decreases |s| + |t|
  {
    if s != [] {
      if t != [] {
        BeforeIsTotal(s[1..], t[1..]);
        assert s == [s[0]] + s[1..] && t == [t[0]] + t[1..];
      }
    }
  }

  lemma {:induction false} BeforeIsTransitive(s: string, t: string, u: string)
    requires Before(s, t) && Before(t, u)
    ensures Before(s, u)
  {
    if s != [] && s[0] == t[0] == u[0] {
      BeforeIsTransitive(s[1..], t[1..], u[1..]);
    }
  }

  lemma BeforeIsStrict()
    ensures StrictOrder(Before)
  {
    forall s
      ensures !Before(s, s)
    {
      BeforeIsTotal(s, s);
    }
    forall s, t, u | Before(s, t) && Before(t, u)
      ensures Before(s, u)
    {
      BeforeIsTransitive(s, t, u);
    }
  }

  /** Sorting distinct strings gives the one ascending sequence of them. */
  lemma DistinctStringsSort(s: seq<string>)
    requires Distinct(s)
    ensures StrictOrder(Before) && Comparable(Before, s) && Ascending(Before, Sort(Before, s))
    ensures SameElements(Sort(Before, s), s)
  {
    BeforeIsStrict();
    forall i, j | 0 <= i < j < |s|
      ensures Before(s[i], s[j]) || Before(s[j], s[i])
    {
      BeforeIsTotal(s[i], s[j]);
    }
    SortAscends(Before, s);
    SortKeepsElements(Before, s);
  }

  /** Where s and t first differ at k, or s ends. */
  predicate DifferAt(s: string, t: string, k: int) {
    0 <= k <= |s| && k < |t| && s[..k] == t[..k] && (k < |s| ==> s[k] < t[k])
  }

  lemma SameFront(s: string, t: string, k: int)
    requires DifferAt(s, t, k) && s != []
    ensures k == 0 || s[0] == t[0]
  {
    if k > 0 {
      assert s[..k][0] == s[0] && t[..k][0] == t[0];
    }
  }

  /** s comes before t if and only if t continues s, or has the greater character where they first
      differ. */
  lemma {:induction false} BeforeIff(s: string, t: string)
    ensures Before(s, t) <==> exists k :: DifferAt(s, t, k)
    decreases |s|
  {
    if s == [] {
      assert Before(s, t) ==> DifferAt(s, t, 0);
    } else if t != [] {
      BeforeIff(s[1..], t[1..]);
      if s[0] == t[0] {
        if k :| DifferAt(s[1..], t[1..], k) {
          assert s[..k + 1] == [s[0]] + s[1..][..k] && t[..k + 1] == [t[0]] + t[1..][..k];
          assert DifferAt(s, t, k + 1);
        }
        if k :| DifferAt(s, t, k) {
          assert k > 0;
          assert s[1..][..k - 1] == s[..k][1..] && t[1..][..k - 1] == t[..k][1..];
          assert DifferAt(s[1..], t[1..], k - 1);
        }
      } else {
        forall k | DifferAt(s, t, k)
          ensures k == 0
        {
          SameFront(s, t, k);
        }
        assert s[0] < t[0] ==> DifferAt(s, t, 0);
      }
    }
  }
}
