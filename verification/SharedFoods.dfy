/** sharedFoods and buildIcebreakers of anmates-api/services/meal_day.go. A member's interests are a
    set: interestsOf stores nothing but true. */
module SharedFoods {
  import opened Wrappers
  import opened Ordering

  const CATEGORY_NAMES: map<string, string> := map[
    "pho" := "phở", "com" := "cơm", "bun" := "bún", "lau" := "lẩu",
    "bbq" := "đồ nướng", "cafe" := "cà phê", "trang_mieng" := "tráng miệng", "other" := ""]

  /** The name an interest is shown by; None for a category that is not shown. */
  function Shown(key: string): Option<string> {
    if key in CATEGORY_NAMES then
      if CATEGORY_NAMES[key] == "" then None else Some(CATEGORY_NAMES[key])
    else Some(key)
  }

  predicate OccursAt(s: string, part: string, i: int) {
    0 <= i <= |s| - |part| && s[i..i + |part|] == part
  }

  predicate Contains(s: string, part: string) { exists i :: 0 <= i <= |s| && OccursAt(s, part, i) }

  datatype Item = Item(raw: string, disp: string)

  /** The categories' names; "other" is not shown, and any other interest is shown as it is written. */
  lemma ShownAre(key: string)
    ensures Shown("pho") == Some("phở") && Shown("com") == Some("cơm") && Shown("bun") == Some("bún")
    ensures Shown("lau") == Some("lẩu") && Shown("bbq") == Some("đồ nướng") && Shown("cafe") == Some("cà phê")
    ensures Shown("trang_mieng") == Some("tráng miệng") && Shown("other") == None
    ensures key !in {"pho", "com", "bun", "lau", "bbq", "cafe", "trang_mieng", "other"} ==> Shown(key) == Some(key)
    ensures key in CATEGORY_NAMES <==> key in {"pho", "com", "bun", "lau", "bbq", "cafe", "trang_mieng", "other"}
  {
  }

  lemma ContainsIff(s: string, part: string)
    ensures Contains(s, part) <==> exists front, back :: s == front + part + back
  {
    if i :| 0 <= i <= |s| && OccursAt(s, part, i) {
      assert s == s[..i] + part + s[i + |part|..];
    }
    if front, back :| s == front + part + back {
      assert s[|front|..|front| + |part|] == part;
      assert OccursAt(s, part, |front|);
    }
  }

  // ---- The loops, as functions of what they have consumed -----------------------------------

  predicate Displayed(items: seq<Item>, d: string) { exists it :: it in items && it.disp == d }

  function Items(raw: seq<string>): seq<Item> {
    if raw == [] then []
    else
      var before, key := Items(raw[..|raw| - 1]), raw[|raw| - 1];
      var shown := Shown(key);
      if shown.None? || Displayed(before, shown.value) then before else before + [Item(key, shown.value)]
  }

  predicate Covered(items: seq<Item>, i: nat)
    requires i < |items|
  {
    exists j :: 0 <= j < |items| && j != i && Contains(items[j].disp, items[i].disp)
  }

  predicate Chosen(items: seq<Item>, i: nat)
    requires i < |items|
  {
    items[i].raw !in CATEGORY_NAMES || !Covered(items, i)
  }

  function Choose(items: seq<Item>, n: nat): seq<string>
    requires n <= |items|
  {
    if n == 0 then [] else Choose(items, n - 1) + if Chosen(items, n - 1) then [items[n - 1].disp] else []
  }

  ghost function Enumerate(s: set<string>): (e: seq<string>)
    ensures Distinct(e) && forall x :: x in e <==> x in s
  {
    if s == {} then []
    else
      var x :| x in s;
      [x] + Enumerate(s - {x})
  }

  /** Both members' interests in ascending order. */
  ghost function Shared(a: set<string>, b: set<string>): seq<string> { Sort(Before, Enumerate(a * b)) }

  ghost function SharedFoods(a: set<string>, b: set<string>): seq<string> {
    var items := Items(Shared(a, b));
    Sort(Before, Choose(items, |items|))
  }

  lemma SharedIsSorted(a: set<string>, b: set<string>)
    ensures Ascending(Before, Shared(a, b)) && Distinct(Shared(a, b))
    ensures forall x :: x in Shared(a, b) <==> x in a && x in b
  {
    DistinctStringsSort(Enumerate(a * b));
    assert forall s :: !Before(s, s);
  }

  /** Sorting undoes whatever order the shared keys were collected in. */
  lemma SharedFromAnyOrder(a: set<string>, b: set<string>, raw: seq<string>)
    requires Distinct(raw) && forall x :: x in raw <==> x in a && x in b
    ensures Sort(Before, raw) == Shared(a, b)
  {
    DistinctStringsSort(raw);
    DistinctStringsSort(Enumerate(a * b));
    SortForgetsOrder(Before, raw, Enumerate(a * b));
  }

  // ---- The algorithm -----------------------------------------------------------------------

  method SharedFoodsOf(a: set<string>, b: set<string>) returns (out: seq<string>)
    ensures out == SharedFoods(a, b)
  {
    var raw := Collect(a, b);
    SharedFromAnyOrder(a, b, raw);
    raw := Sort(Before, raw);
    var items := Deduplicate(raw);
    out := Filter(items);
    out := Sort(Before, out);
  }

  method Deduplicate(raw: seq<string>) returns (items: seq<Item>)
    ensures items == Items(raw)
  {
    items := [];
    var seenDisp: set<string> := {};
    for i := 0 to |raw|
      invariant items == Items(raw[..i])
      invariant forall d :: d in seenDisp <==> Displayed(items, d)
    {
      assert raw[..i + 1][..i] == raw[..i];
      var shown := Shown(raw[i]);
      if shown.Some? && shown.value !in seenDisp {
        seenDisp := seenDisp + {shown.value};
        items := items + [Item(raw[i], shown.value)];
      }
    }
    assert raw[..|raw|] == raw;
  }

  method Filter(items: seq<Item>) returns (out: seq<string>)
    ensures out == Choose(items, |items|)
  {
    out := [];
    for i := 0 to |items|
      invariant out == Choose(items, i)
    {
      if items[i].raw !in CATEGORY_NAMES {
        out := out + [items[i].disp];
      } else {
        var covered := IsCovered(items, i);
        if !covered {
          out := out + [items[i].disp];
        }
      }
    }
  }

  /** The keys of `a` that are in `b`, in whatever order the map is iterated. */
  method Collect(a: set<string>, b: set<string>) returns (raw: seq<string>)
    ensures Distinct(raw) && forall x :: x in raw <==> x in a && x in b
  {
    raw := [];
    var rest := a;
    while rest != {}
      invariant Distinct(raw) && rest <= a
      invariant forall x :: x in raw <==> x in a && x in b && x !in rest
    {
      var k :| k in rest;
      rest := rest - {k};
      if k in b {
        raw := raw + [k];
      }
    }
  }

  method IsCovered(items: seq<Item>, i: nat) returns (covered: bool)
    requires i < |items|
    ensures covered <==> Covered(items, i)
  {
    for j := 0 to |items|
      invariant forall k :: 0 <= k < j && k != i ==> !Contains(items[k].disp, items[i].disp)
    {
      if j != i && Contains(items[j].disp, items[i].disp) {
        return true;
      }
    }
    return false;
  }

  // ---- What is listed ----------------------------------------------------------------------

  /** d is the name some shared key is shown by. */
  ghost predicate IsName(keys: seq<string>, d: string) { exists k :: k in keys && Shown(k) == Some(d) }

  /** The item's key is the first, in ascending order, of those shown by its name. */
  ghost predicate IsFirstAt(keys: seq<string>, i: int, it: Item) {
    && 0 <= i < |keys| && keys[i] == it.raw && Shown(it.raw) == Some(it.disp)
    && forall j :: 0 <= j < i ==> Shown(keys[j]) != Some(it.disp)
  }

  ghost predicate IsFirst(keys: seq<string>, it: Item) { exists i :: IsFirstAt(keys, i, it) }

  lemma {:induction false} ItemsNamed(keys: seq<string>)
    ensures forall d :: Displayed(Items(keys), d) <==> IsName(keys, d)
    ensures forall i, j :: 0 <= i < j < |Items(keys)| ==> Items(keys)[i].disp != Items(keys)[j].disp
  {
    if keys != [] {
      var n := |keys| - 1;
      ItemsNamed(keys[..n]);
      NamesGrow(keys[..n], keys[n]);
      assert keys == keys[..n] + [keys[n]];
    }
  }

  lemma FirstStaysFirst(front: seq<string>, last: string, it: Item)
    requires IsFirst(front, it)
    ensures IsFirst(front + [last], it)
  {
    var i :| IsFirstAt(front, i, it);
    assert IsFirstAt(front + [last], i, it);
  }

  lemma NewItemIsFirst(front: seq<string>, it: Item)
    requires Shown(it.raw) == Some(it.disp) && !IsName(front, it.disp)
    ensures IsFirst(front + [it.raw], it)
  {
    assert forall j :: 0 <= j < |front| ==> front[j] in front;
    assert IsFirstAt(front + [it.raw], |front|, it);
  }

  lemma {:induction false} ItemsAreFirst(keys: seq<string>, it: Item)
    requires it in Items(keys)
    ensures IsFirst(keys, it)
  {
    hide Shown, IsFirst, IsName;
    var front, last := keys[..|keys| - 1], keys[|keys| - 1];
    assert keys == front + [last];
    if it in Items(front) {
      ItemsAreFirst(front, it);
      FirstStaysFirst(front, last, it);
    } else {
      ItemsNamed(front);
      NewItemIsFirst(front, it);
    }
  }

  /** There is one item per name, holding the first key of that name. */
  lemma ItemsAre(keys: seq<string>)
    ensures forall d :: Displayed(Items(keys), d) <==> IsName(keys, d)
    ensures forall it :: it in Items(keys) ==> IsFirst(keys, it)
    ensures forall i, j :: 0 <= i < j < |Items(keys)| ==> Items(keys)[i].disp != Items(keys)[j].disp
  {
    hide Items, IsFirst;
    ItemsNamed(keys);
    forall it | it in Items(keys)
      ensures IsFirst(keys, it)
    {
      ItemsAreFirst(keys, it);
    }
  }

  lemma NamesGrow(front: seq<string>, last: string)
    ensures forall d :: IsName(front + [last], d) <==> IsName(front, d) || Shown(last) == Some(d)
    ensures forall d :: Displayed(Items(front + [last]), d) <==> Displayed(Items(front), d) || Shown(last) == Some(d)
  {
  }

  lemma {:induction false} ChooseAre(items: seq<Item>, n: nat)
    requires n <= |items| && forall i, j :: 0 <= i < j < |items| ==> items[i].disp != items[j].disp
    ensures forall d :: d in Choose(items, n) <==> exists i :: 0 <= i < n && Chosen(items, i) && items[i].disp == d
    ensures Distinct(Choose(items, n))
  {
    if n > 0 {
      ChooseAre(items, n - 1);
      assert items[n - 1].disp !in Choose(items, n - 1);
    }
  }

  // ---- The listing, without the loops ------------------------------------------------------

  ghost predicate Names(a: set<string>, b: set<string>, d: string) {
    exists k :: k in a && k in b && Shown(k) == Some(d)
  }

  /** k is the least shared key shown as d. */
  ghost predicate Leads(a: set<string>, b: set<string>, k: string, d: string) {
    && k in a && k in b && Shown(k) == Some(d)
    && forall l :: l in a && l in b && Shown(l) == Some(d) && l != k ==> Before(k, l)
  }

  /** d is the name of a shared interest, and if it is led by a category then no longer name of a
      shared interest contains it. */
  ghost predicate Lists(a: set<string>, b: set<string>, d: string) {
    exists k :: Leads(a, b, k, d) &&
      (k !in CATEGORY_NAMES || forall e :: Names(a, b, e) && e != d ==> !Contains(e, d))
  }

  lemma FirstLeads(a: set<string>, b: set<string>, it: Item)
    requires IsFirst(Shared(a, b), it)
    ensures Leads(a, b, it.raw, it.disp)
  {
    SharedIsSorted(a, b);
    var keys := Shared(a, b);
    var i :| IsFirstAt(keys, i, it);
    assert keys[i] in keys;
    forall l | l in a && l in b && Shown(l) == Some(it.disp) && l != it.raw
      ensures Before(it.raw, l)
    {
      assert l in keys;
    }
  }

  lemma LeadersAgree(a: set<string>, b: set<string>, k: string, l: string, d: string)
    requires Leads(a, b, k, d) && Leads(a, b, l, d)
    ensures k == l
  {
    BeforeIsTotal(k, l);
  }

  lemma NamesAre(a: set<string>, b: set<string>, d: string)
    ensures Displayed(Items(Shared(a, b)), d) <==> Names(a, b, d)
  {
    SharedIsSorted(a, b);
    ItemsAre(Shared(a, b));
    assert IsName(Shared(a, b), d) <==> Names(a, b, d);
  }

  lemma ChosenLists(a: set<string>, b: set<string>, i: nat)
    requires i < |Items(Shared(a, b))|
    ensures Chosen(Items(Shared(a, b)), i) <==> Lists(a, b, Items(Shared(a, b))[i].disp)
  {
    var items := Items(Shared(a, b));
    var it := items[i];
    ItemsAre(Shared(a, b));
    FirstLeads(a, b, it);
    forall l | Leads(a, b, l, it.disp)
      ensures l == it.raw
    {
      LeadersAgree(a, b, l, it.raw, it.disp);
    }
    CoveredIff(a, b, i);
  }

  lemma CoveredIff(a: set<string>, b: set<string>, i: nat)
    requires i < |Items(Shared(a, b))|
    ensures (Covered(Items(Shared(a, b)), i) <==>
               exists e :: Names(a, b, e) && e != Items(Shared(a, b))[i].disp && Contains(e, Items(Shared(a, b))[i].disp))
  {
    var items := Items(Shared(a, b));
    var d := items[i].disp;
    ItemsAre(Shared(a, b));
    if Covered(items, i) {
      var j :| 0 <= j < |items| && j != i && Contains(items[j].disp, d);
      NamesAre(a, b, items[j].disp);
      assert items[j] in items;
    }
    if e :| Names(a, b, e) && e != d && Contains(e, d) {
      NamesAre(a, b, e);
      var it :| it in items && it.disp == e;
      var j :| 0 <= j < |items| && items[j] == it;
      assert Covered(items, i);
    }
  }

  /** The result in full: the names that Lists describes, each once, in ascending order. */
  lemma SharedFoodsAre(a: set<string>, b: set<string>)
    ensures Ascending(Before, SharedFoods(a, b))
    ensures forall d :: d in SharedFoods(a, b) <==> Lists(a, b, d)
  {
    var items := Items(Shared(a, b));
    ItemsAre(Shared(a, b));
    ChooseAre(items, |items|);
    DistinctStringsSort(Choose(items, |items|));
    forall d
      ensures d in SharedFoods(a, b) <==> Lists(a, b, d)
    {
      NamesAre(a, b, d);
      if d in SharedFoods(a, b) {
        var i :| 0 <= i < |items| && Chosen(items, i) && items[i].disp == d;
        ChosenLists(a, b, i);
      }
      if Lists(a, b, d) {
        var it :| it in items && it.disp == d;
        var i :| 0 <= i < |items| && items[i] == it;
        ChosenLists(a, b, i);
      }
    }
  }

  /** Both members get the same list. */
  lemma Symmetric(a: set<string>, b: set<string>)
    ensures SharedFoods(a, b) == SharedFoods(b, a)
  {
    assert a * b == b * a;
  }

  // ---- Nothing shared is lost --------------------------------------------------------------

  lemma ContainsItself(s: string)
    ensures Contains(s, s)
  {
    assert OccursAt(s, s, 0);
  }

  lemma ContainsIsTransitive(s: string, t: string, u: string)
    requires Contains(s, t) && Contains(t, u)
    ensures Contains(s, u)
  {
    var i :| 0 <= i <= |s| && OccursAt(s, t, i);
    var j :| 0 <= j <= |t| && OccursAt(t, u, j);
    assert forall k :: 0 <= k < |t| ==> s[i + k] == t[k];
    assert forall k :: 0 <= k < |u| ==> s[i + (j + k)] == t[j + k] == u[k];
    assert s[i + j..i + j + |u|] == u;
    assert OccursAt(s, u, i + j);
  }

  lemma ProperlyContainedIsShorter(s: string, part: string)
    requires Contains(s, part) && s != part
    ensures |part| < |s|
  {
  }

  lemma {:induction false} LongestName(keys: seq<string>) returns (longest: nat)
    ensures forall d :: IsName(keys, d) ==> |d| <= longest
  {
    if keys == [] {
      longest := 0;
    } else {
      var n := |keys| - 1;
      var before := LongestName(keys[..n]);
      assert keys == keys[..n] + [keys[n]];
      NamesGrow(keys[..n], keys[n]);
      longest := if Shown(keys[n]).Some? && |Shown(keys[n]).value| > before then |Shown(keys[n]).value| else before;
    }
  }

  /** A covered name is contained in a longer one, and lengths are bounded. */
  lemma {:induction false} NameIsCovered(a: set<string>, b: set<string>, d: string, longest: nat)
    returns (e: string)
    requires Names(a, b, d) && forall n :: Names(a, b, n) ==> |n| <= longest
    ensures Lists(a, b, e) && Contains(e, d)
    decreases longest - |d|
  {
    NamesAre(a, b, d);
    var items := Items(Shared(a, b));
    var it :| it in items && it.disp == d;
    ItemsAre(Shared(a, b));
    FirstLeads(a, b, it);
    if Lists(a, b, d) {
      ContainsItself(d);
      return d;
    }
    var f :| Names(a, b, f) && f != d && Contains(f, d);
    ProperlyContainedIsShorter(f, d);
    e := NameIsCovered(a, b, f, longest);
    ContainsIsTransitive(e, f, d);
  }

  /** Every shared interest that is shown at all is contained in some entry. */
  lemma EverySharedKeyIsCovered(a: set<string>, b: set<string>, k: string)
    requires k in a && k in b && Shown(k).Some?
    ensures exists e :: e in SharedFoods(a, b) && Contains(e, Shown(k).value)
  {
    SharedIsSorted(a, b);
    var longest := LongestName(Shared(a, b));
    forall n | Names(a, b, n)
      ensures |n| <= longest
    {
      assert IsName(Shared(a, b), n);
    }
    var e := NameIsCovered(a, b, Shown(k).value, longest);
    SharedFoodsAre(a, b);
  }

  // ---- Icebreakers -------------------------------------------------------------------------

  /** A prompt by the index of its template; the texts are not modelled. */
  datatype Prompt = AboutFood(template: nat, food: string) | Generic(template: nat)

  const TEMPLATES := 4    // of each kind

  method BuildIcebreakers(seed: nat, shared: seq<string>) returns (out: seq<Prompt>)
    ensures |out| == 3 && forall i :: 0 <= i < 3 ==> out[i] == PromptAt(seed, shared, i)
    ensures |{out[0].template, out[1].template, out[2].template}| == 3
  {
    out := [];
    var start := seed % TEMPLATES;
    for i := 0 to 3
      invariant |out| == i && forall j :: 0 <= j < i ==> out[j] == PromptAt(seed, shared, j)
    {
      var template := (start + i) % TEMPLATES;
      if shared == [] {
        out := out + [Generic(template)];
      } else {
        var food := shared[i % |shared|];
        out := out + [AboutFood(template, food)];
      }
    }
  }

  function PromptAt(seed: nat, shared: seq<string>, i: nat): Prompt {
    var template := (seed % TEMPLATES + i) % TEMPLATES;
    if shared == [] then Generic(template) else AboutFood(template, shared[i % |shared|])
  }

  /** The prompts are about the foods in turn, with the next template each; generic without a food. */
  lemma PromptsAre(seed: nat, shared: seq<string>, i: nat)
    requires i < 3
    ensures PromptAt(seed, shared, i).template == (seed + i) % 4
    ensures PromptAt(seed, shared, i).Generic? <==> shared == []
    ensures i < |shared| ==> PromptAt(seed, shared, i).food == shared[i]
    ensures |shared| == 1 ==> PromptAt(seed, shared, i).food == shared[0]
    ensures |shared| == 2 && i == 2 ==> PromptAt(seed, shared, i).food == shared[0]
  {
  }

  /** Both members of a match see the same icebreakers, whatever order their interests load in. */
  method IcebreakersForBoth(seed: nat, a: set<string>, b: set<string>)
    returns (mine: seq<Prompt>, theirs: seq<Prompt>)
    ensures mine == theirs
  {
    var shared := SharedFoodsOf(a, b);
    mine := BuildIcebreakers(seed, shared);
    shared := SharedFoodsOf(b, a);
    theirs := BuildIcebreakers(seed, shared);
    Symmetric(a, b);
  }
}
