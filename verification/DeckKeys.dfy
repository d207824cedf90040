/** The React keys of a deck's children: walkDeckChildren of the template runtime (support.js). */
module DeckKeys {
  import opened Wrappers
  import CssReads
  import CssScanner

  /** The children that have a builder, in order; `slideId` is the data-om-slide-id attribute. */
  datatype Node =
    | Text(value: Option<string>)
    | Element(tag: string, slideId: Option<string>)
    | Other

  datatype Key = Index(j: nat) | Named(s: string)

  predicate IsAux(tag: string) { tag in {"template", "script", "style", "sc-helmet", "helmet"} }

  predicate IsControlFlow(tag: string) { tag in {"sc-if", "sc-for", "sc-else", "dc-import", "x-import"} }

  predicate IsHex(c: char) { '0' <= c <= '9' || 'a' <= c <= 'f' }

  predicate IsSlideId(s: string) { |s| == 8 && forall i :: 0 <= i < |s| ==> IsHex(s[i]) }

  predicate IsBlankText(value: Option<string>) { value.None? || CssScanner.Trim(value.value) == "" }

  predicate IsBlank(n: Node) { n.Text? && IsBlankText(n.value) }

  /** An element that has to be a slide. */
  predicate IsSlide(n: Node) { n.Element? && !IsAux(n.tag) && !IsControlFlow(n.tag) }

  const AUX_BASE: string := "omid-ws:aux"

  const BLANK_PREFIX: string := "omid-ws:"

  const SLIDE_PREFIX: string := "omid:"

  function Digit(d: nat): char
    requires d < 10
  {
    ['0', '1', '2', '3', '4', '5', '6', '7', '8', '9'][d]
  }

  /** String(n). */
  function Decimal(n: nat): (s: string)
    ensures s != "" && forall i :: 0 <= i < |s| ==> '0' <= s[i] <= '9'
  {
    if n < 10 then [Digit(n)] else Decimal(n / 10) + [Digit(n % 10)]
  }

  /** React compares keys as strings. */
  function KeyText(k: Key): string { if k.Index? then Decimal(k.j) else k.s }

  // ---- The keys, child by child ------------------------------------------------------------

  /** The attribute of the first element from j on, if that element has to be a slide. */
  function NextSlideId(ns: seq<Node>, j: nat): Option<string>
    requires j <= |ns|
    decreases |ns| - j
  {
    if j == |ns| then None
    else if ns[j].Element? then (if IsSlide(ns[j]) then ns[j].slideId else None)
    else NextSlideId(ns, j + 1)
  }

  function BaseFor(next: Option<string>): string {
    if next.Some? && next.value != "" then BLANK_PREFIX + next.value else AUX_BASE
  }

  function BlankBase(ns: seq<Node>, j: nat): string
    requires j < |ns|
  {
    BaseFor(NextSlideId(ns, j))
  }

  /** How many of the first n children are blank texts with this base. */
  function Blanks(ns: seq<Node>, n: nat, base: string): nat
    requires n <= |ns|
  {
    if n == 0 then 0
    else Blanks(ns, n - 1, base) + if IsBlank(ns[n - 1]) && BlankBase(ns, n - 1) == base then 1 else 0
  }

  function Numbered(base: string, n: nat): string { if n == 0 then base else base + ":" + Decimal(n) }

  predicate SlideSeen(ns: seq<Node>, n: nat, id: string)
    requires n <= |ns|
  {
    exists i :: 0 <= i < n && IsSlide(ns[i]) && ns[i].slideId == Some(id)
  }

  /** A child that makes the deck fall back to positions: text that is not blank, control flow, or a
      slide without an id of its own. */
  predicate Refused(ns: seq<Node>, j: nat)
    requires j < |ns|
  {
    var n := ns[j];
    || (n.Text? && !IsBlank(n))
    || (n.Element? && !IsAux(n.tag) && IsControlFlow(n.tag))
    || (IsSlide(n) && (n.slideId.None? || !IsSlideId(n.slideId.value) || SlideSeen(ns, j, n.slideId.value)))
  }

  function KeyAt(ns: seq<Node>, j: nat): Key
    requires j < |ns| && !Refused(ns, j)
  {
    var n := ns[j];
    if n.Text? then Named(Numbered(BlankBase(ns, j), Blanks(ns, j, BlankBase(ns, j))))
    else if IsSlide(n) then Named(SLIDE_PREFIX + n.slideId.value)
    else Index(j)
  }

  ghost predicate AllKeyed(ns: seq<Node>) { forall j :: 0 <= j < |ns| ==> !Refused(ns, j) }

  // ---- The loops ---------------------------------------------------------------------------

  lemma NextSlideIdStep(ns: seq<Node>, j: nat)
    requires j < |ns|
    ensures NextSlideId(ns, j) ==
      if !ns[j].Element? then NextSlideId(ns, j + 1) else if IsSlide(ns[j]) then ns[j].slideId else None
  {
  }

  lemma NoSlideIdAfter(ns: seq<Node>)
    ensures NextSlideId(ns, |ns|) == None
  {
  }

  method NextSlideIds(ns: seq<Node>) returns (next: array<Option<string>>)
    ensures fresh(next) && next.Length == |ns|
    ensures forall j :: 0 <= j < |ns| ==> next[j] == NextSlideId(ns, j)
  {
    hide NextSlideId, IsAux, IsControlFlow;
    next := new Option<string>[|ns|];
    var upcoming: Option<string> := None;
    var j := |ns|;
    NoSlideIdAfter(ns);
    while j > 0
      invariant 0 <= j <= |ns| && upcoming == NextSlideId(ns, j)
      invariant forall i :: j <= i < |ns| ==> next[i] == NextSlideId(ns, i)
    {
      j := j - 1;
      NextSlideIdStep(ns, j);
      var n := ns[j];
      if n.Element? {
        upcoming := if !IsAux(n.tag) && !IsControlFlow(n.tag) then n.slideId else None;
      }
      next[j] := upcoming;
    }
  }

  ghost predicate SeenIs(seen: set<string>, ns: seq<Node>, n: nat)
    requires n <= |ns|
  {
    forall id :: id in seen <==> SlideSeen(ns, n, id)
  }

  ghost predicate CountIs(wsSeen: map<string, nat>, ns: seq<Node>, n: nat)
    requires n <= |ns|
  {
    forall b :: (if b in wsSeen then wsSeen[b] else 0) == Blanks(ns, n, b)
  }

  lemma SeenStep(seen: set<string>, ns: seq<Node>, j: nat)
    requires j < |ns| && SeenIs(seen, ns, j)
    ensures IsSlide(ns[j]) && ns[j].slideId.Some? ==> SeenIs(seen + {ns[j].slideId.value}, ns, j + 1)
    ensures !IsSlide(ns[j]) ==> SeenIs(seen, ns, j + 1)
  {
  }

  lemma CountStep(wsSeen: map<string, nat>, ns: seq<Node>, j: nat)
    requires j < |ns| && CountIs(wsSeen, ns, j)
    ensures IsBlank(ns[j]) ==> CountIs(wsSeen[BlankBase(ns, j) := Blanks(ns, j, BlankBase(ns, j)) + 1], ns, j + 1)
    ensures !IsBlank(ns[j]) ==> CountIs(wsSeen, ns, j + 1)
  {
  }

  method WalkDeckChildren(ns: seq<Node>) returns (keys: Option<seq<Key>>)
    ensures keys.Some? <==> AllKeyed(ns)
    ensures keys.Some? ==> |keys.value| == |ns| && forall j :: 0 <= j < |ns| ==> keys.value[j] == KeyAt(ns, j)
  {
    var next := NextSlideIds(ns);
    var seen: set<string> := {};
    var wsSeen: map<string, nat> := map[];
    var out: seq<Key> := [];
    hide IsAux, IsControlFlow, IsBlankText, IsSlideId, NextSlideId, BaseFor, Numbered;
    assert SeenIs(seen, ns, 0) && CountIs(wsSeen, ns, 0);
    hide SlideSeen, Blanks;
    for j := 0 to |ns|
      invariant |out| == j && forall i :: 0 <= i < j ==> !Refused(ns, i) && out[i] == KeyAt(ns, i)
      invariant SeenIs(seen, ns, j) && CountIs(wsSeen, ns, j)
      invariant forall i :: 0 <= i < |ns| ==> next[i] == NextSlideId(ns, i)
    {
      SeenStep(seen, ns, j);
      CountStep(wsSeen, ns, j);
      var c := ns[j];
      if c.Text? {
        if !IsBlank(c) {
          assert Refused(ns, j);
          return None;
        }
        var base := BaseFor(next[j]);
        var n := if base in wsSeen then wsSeen[base] else 0;
        wsSeen := wsSeen[base := n + 1];
        out := out + [Named(Numbered(base, n))];
      } else if c.Other? || IsAux(c.tag) {
        out := out + [Index(j)];
      } else {
        if IsControlFlow(c.tag) || c.slideId.None? || !IsSlideId(c.slideId.value) || c.slideId.value in seen {
          assert Refused(ns, j);
          return None;
        }
        seen := seen + {c.slideId.value};
        out := out + [Named(SLIDE_PREFIX + c.slideId.value)];
      }
    }
    return Some(out);
  }

  // ---- Decimal numerals --------------------------------------------------------------------

  function DigitValue(c: char): int { c as int - '0' as int }

  function Value(s: string): int {
    if s == "" then 0 else 10 * Value(s[..|s| - 1]) + DigitValue(s[|s| - 1])
  }

  lemma {:induction false} DecimalReadsBack(n: nat)
    ensures Value(Decimal(n)) == n
  {
    if n >= 10 {
      DecimalReadsBack(n / 10);
      assert Decimal(n)[..|Decimal(n)| - 1] == Decimal(n / 10);
    } else {
      assert Value(Decimal(n)[..0]) == 0;
    }
  }

  // ---- Keys are distinct -------------------------------------------------------------------

  predicate NoColon(s: string) { forall i :: 0 <= i < |s| ==> s[i] != ':' }

  /** What Numbered adds to a base. */
  function Suffix(n: nat): string { if n == 0 then "" else ":" + Decimal(n) }

  lemma SuffixReadsBack(m: nat, n: nat)
    requires Suffix(m) == Suffix(n)
    ensures m == n
  {
    DecimalReadsBack(m);
    DecimalReadsBack(n);
    if m > 0 && n > 0 {
      assert Suffix(m)[1..] == Decimal(m) && Suffix(n)[1..] == Decimal(n);
    }
  }

  lemma {:induction false} NumberedReadsBack(s: string, m: nat, t: string, n: nat)
    requires NoColon(s) && NoColon(t) && s + Suffix(m) == t + Suffix(n)
    ensures s == t && m == n
  {
    hide Suffix;
    ColonEnds(s, m, t, n);
    ColonEnds(t, n, s, m);
    if s == "" {
      assert s + Suffix(m) == Suffix(m) && t + Suffix(n) == Suffix(n);
      SuffixReadsBack(m, n);
    } else {
      HeadsAndTails(s, Suffix(m), t, Suffix(n));
      NumberedReadsBack(s[1..], m, t[1..], n);
    }
  }

  lemma HeadsAndTails(s: string, x: string, t: string, y: string)
    requires s != "" && t != "" && s + x == t + y
    ensures s[1..] + x == t[1..] + y
    ensures s[1..] == t[1..] ==> s == t
  {
    assert (s + x)[1..] == s[1..] + x && (t + y)[1..] == t[1..] + y;
    assert (s + x)[0] == s[0] && (t + y)[0] == t[0];
    assert s == [s[0]] + s[1..] && t == [t[0]] + t[1..];
  }

  /** A suffix starts with a colon. */
  lemma ColonEnds(s: string, m: nat, t: string, n: nat)
    requires NoColon(s) && NoColon(t) && s + Suffix(m) == t + Suffix(n)
    ensures s != "" ==> t != ""
  {
    assert s != "" ==> (s + Suffix(m))[0] == s[0];
    assert t == "" ==> t + Suffix(n) == Suffix(n);
  }

  /** The name a blank text's base stands for: the next slide's id, or "aux". */
  function BlankName(next: Option<string>): string { if next.Some? && next.value != "" then next.value else "aux" }

  lemma BaseHasName(next: Option<string>)
    ensures BaseFor(next) == BLANK_PREFIX + BlankName(next)
  {
  }

  lemma NameHasNoColon(next: Option<string>)
    requires next.Some? ==> IsSlideId(next.value)
    ensures NoColon(BlankName(next))
  {
  }

  lemma NumberedIs(p: string, name: string, n: nat)
    ensures Numbered(p + name, n) == p + (name + Suffix(n))
  {
  }

  lemma {:induction false} NextSlideIdIsValid(ns: seq<Node>, j: nat)
    requires AllKeyed(ns) && j <= |ns|
    ensures NextSlideId(ns, j).Some? ==> IsSlideId(NextSlideId(ns, j).value)
    decreases |ns| - j
  {
    if j < |ns| && !ns[j].Element? {
      NextSlideIdIsValid(ns, j + 1);
    } else if j < |ns| {
      assert !Refused(ns, j);
    }
  }

  lemma BlankKey(ns: seq<Node>, j: nat)
    requires AllKeyed(ns) && j < |ns| && ns[j].Text?
    ensures (var name := BlankName(NextSlideId(ns, j));
             && NoColon(name) && BlankBase(ns, j) == BLANK_PREFIX + name
             && KeyText(KeyAt(ns, j)) == BLANK_PREFIX + (name + Suffix(Blanks(ns, j, BlankBase(ns, j)))))
  {
    hide NextSlideId, Refused, Numbered, Suffix, Blanks, BaseFor, BlankName, NoColon, IsSlideId;
    NextSlideIdIsValid(ns, j);
    BaseHasName(NextSlideId(ns, j));
    NameHasNoColon(NextSlideId(ns, j));
    NumberedIs(BLANK_PREFIX, BlankName(NextSlideId(ns, j)), Blanks(ns, j, BlankBase(ns, j)));
  }

  lemma {:induction false} BlanksGrow(ns: seq<Node>, i: nat, j: nat)
    requires i < j <= |ns| && IsBlank(ns[i])
    ensures Blanks(ns, i, BlankBase(ns, i)) < Blanks(ns, j, BlankBase(ns, i))
    decreases j
  {
    hide BlankBase, IsBlank;
    if i < j - 1 {
      BlanksGrow(ns, i, j - 1);
    }
  }

  lemma PrefixCancels(p: string, s: string, t: string)
    requires p + s == p + t
    ensures s == t
  {
    assert (p + s)[|p|..] == s && (p + t)[|p|..] == t;
  }

  lemma BlankKeysDiffer(ns: seq<Node>, i: nat, j: nat)
    requires AllKeyed(ns) && i < j < |ns| && ns[i].Text? && ns[j].Text?
    ensures KeyText(KeyAt(ns, i)) != KeyText(KeyAt(ns, j))
  {
    BlankKey(ns, i);
    BlankKey(ns, j);
    assert !Refused(ns, i);
    BlanksGrow(ns, i, j);
    hide NextSlideId, Refused, Suffix, Blanks, BlankBase, BlankName, NoColon, KeyAt;
    var s, t := BlankName(NextSlideId(ns, i)), BlankName(NextSlideId(ns, j));
    var m, n := Blanks(ns, i, BlankBase(ns, i)), Blanks(ns, j, BlankBase(ns, j));
    if KeyText(KeyAt(ns, i)) == KeyText(KeyAt(ns, j)) {
      PrefixCancels(BLANK_PREFIX, s + Suffix(m), t + Suffix(n));
      NumberedReadsBack(s, m, t, n);
    }
  }

  datatype KeyKind = BlankKind | SlideKind | IndexKind

  function KindOf(n: Node): KeyKind { if n.Text? then BlankKind else if IsSlide(n) then SlideKind else IndexKind }

  /** Keys of different kinds differ in one of their first five characters. */
  lemma KindShows(ns: seq<Node>, j: nat)
    requires AllKeyed(ns) && j < |ns|
    ensures (var text := KeyText(KeyAt(ns, j));
             match KindOf(ns[j])
             case BlankKind => |text| > 4 && text[4] == '-' && text[0] == 'o'
             case SlideKind => |text| > 4 && text[4] == ':' && text[0] == 'o'
             case IndexKind => |text| > 0 && text[0] <= '9')
  {
  }

  lemma SlideIdsDiffer(ns: seq<Node>, i: nat, j: nat)
    requires AllKeyed(ns) && i < j < |ns| && IsSlide(ns[i]) && IsSlide(ns[j])
    ensures ns[i].slideId.Some? && ns[j].slideId.Some? && ns[i].slideId != ns[j].slideId
  {
    assert !Refused(ns, i) && !Refused(ns, j);
    assert !SlideSeen(ns, j, ns[j].slideId.value);
  }

  /** Whenever keys are given, they are pairwise distinct as strings. */
  lemma KeysAreDistinct(ns: seq<Node>, i: nat, j: nat)
    requires AllKeyed(ns) && i < j < |ns|
    ensures KeyText(KeyAt(ns, i)) != KeyText(KeyAt(ns, j))
  {
    hide NextSlideId, IsAux, IsControlFlow, IsBlankText, Decimal, Blanks, BlankBase;
    assert !Refused(ns, i) && !Refused(ns, j);
    KindShows(ns, i);
    KindShows(ns, j);
    if KindOf(ns[i]) == KindOf(ns[j]) {
      match KindOf(ns[i])
      case BlankKind => BlankKeysDiffer(ns, i, j);
      case SlideKind =>
        SlideIdsDiffer(ns, i, j);
        if KeyText(KeyAt(ns, i)) == KeyText(KeyAt(ns, j)) {
          PrefixCancels(SLIDE_PREFIX, ns[i].slideId.value, ns[j].slideId.value);
        }
      case IndexKind =>
        DecimalReadsBack(i);
        DecimalReadsBack(j);
    }
  }

  /** A slide's key depends on its own id alone: in any two decks, wherever it stands and whatever
      stands around it, and different ids have different keys. */
  lemma SlideKeyIsItsOwn(ns: seq<Node>, i: nat, ms: seq<Node>, j: nat)
    requires AllKeyed(ns) && i < |ns| && IsSlide(ns[i])
    requires AllKeyed(ms) && j < |ms| && IsSlide(ms[j])
    ensures KeyAt(ns, i) == KeyAt(ms, j) <==> ns[i].slideId == ms[j].slideId
  {
    assert !Refused(ns, i) && !Refused(ms, j);
    if KeyAt(ns, i) == KeyAt(ms, j) {
      PrefixCancels(SLIDE_PREFIX, ns[i].slideId.value, ms[j].slideId.value);
    }
  }

  // ---- Which decks are keyed, and how ------------------------------------------------------

  predicate IsSlideTag(tag: string) {
    tag !in {"template", "script", "style", "sc-helmet", "helmet", "sc-if", "sc-for", "sc-else", "dc-import", "x-import"}
  }

  predicate HexDigits(s: string) { forall i :: 0 <= i < |s| ==> s[i] in "0123456789abcdef" }

  lemma HexAre(c: char)
    ensures IsHex(c) <==> c in "0123456789abcdef"
  {
    if '0' <= c <= '9' {
      assert "0123456789abcdef"[c as int - 48] == c;
    } else if 'a' <= c <= 'f' {
      assert "0123456789abcdef"[c as int - 87] == c;
    }
  }

  lemma BlankTextIff(text: string)
    ensures IsBlankText(Some(text)) <==> forall i :: 0 <= i < |text| ==> CssScanner.IsSpace(text[i])
  {
    var front, back := CssReads.TrimIs(text);
  }

  lemma SlideIdIff(id: string)
    ensures IsSlideId(id) <==> |id| == 8 && HexDigits(id)
  {
    forall i | 0 <= i < |id|
      ensures IsHex(id[i]) <==> id[i] in "0123456789abcdef"
    {
      HexAre(id[i]);
    }
  }

  /** A text is blank; an element is no control flow; a slide has an id of eight hexadecimal digits that
      no slide before it has. */
  ghost predicate Fits(ns: seq<Node>, j: nat)
    requires j < |ns|
  {
    match ns[j]
    case Text(Some(text)) => forall i :: 0 <= i < |text| ==> CssScanner.IsSpace(text[i])
    case Element(tag, slideId) =>
      && tag !in {"sc-if", "sc-for", "sc-else", "dc-import", "x-import"}
      && (IsSlideTag(tag) ==>
            && slideId.Some? && |slideId.value| == 8 && HexDigits(slideId.value)
            && forall i :: 0 <= i < j && ns[i].Element? && IsSlideTag(ns[i].tag) ==> ns[i].slideId != slideId)
    case _ => true
  }

  lemma FitsIff(ns: seq<Node>, j: nat)
    requires j < |ns|
    ensures !Refused(ns, j) <==> Fits(ns, j)
  {
    match ns[j]
    case Text(Some(text)) =>
      BlankTextIff(text);
    case Element(tag, Some(id)) =>
      SlideIdIff(id);
      hide IsSlideId, HexDigits;
    case _ =>
  }

  /** Which decks get keys. */
  lemma KeyedIff(ns: seq<Node>)
    ensures AllKeyed(ns) <==> forall j: nat :: j < |ns| ==> Fits(ns, j)
  {
    forall j: nat | j < |ns|
      ensures !Refused(ns, j) <==> Fits(ns, j)
    {
      FitsIff(ns, j);
    }
    hide Refused, Fits;
  }

  /** The slide with this id is the first element from j on. */
  predicate SlideAhead(ns: seq<Node>, j: nat, k: nat, id: string) {
    && j <= k < |ns| && ns[k].Element? && IsSlideTag(ns[k].tag) && ns[k].slideId == Some(id)
    && forall i :: j <= i < k ==> !ns[i].Element?
  }

  lemma {:induction false} NextSlideIdIs(ns: seq<Node>, j: nat, k: nat, id: string)
    requires SlideAhead(ns, j, k, id)
    ensures NextSlideId(ns, j) == Some(id)
    decreases k - j
  {
    if j < k {
      NextSlideIdIs(ns, j + 1, k, id);
    }
  }

  ghost predicate SlideComes(ns: seq<Node>, j: nat) { exists k: nat, id :: SlideAhead(ns, j, k, id) }

  lemma {:induction false} NoSlideAhead(ns: seq<Node>, j: nat)
    requires j <= |ns| && !SlideComes(ns, j)
    ensures NextSlideId(ns, j) == None
    decreases |ns| - j
  {
    if j < |ns| {
      if ns[j].Element? {
        if IsSlide(ns[j]) && ns[j].slideId.Some? {
          assert SlideAhead(ns, j, j, ns[j].slideId.value);
        }
      } else {
        var next := j + 1;
        if k: nat, id :| SlideAhead(ns, next, k, id) {
          assert SlideAhead(ns, j, k, id);
        }
        NoSlideAhead(ns, j + 1);
      }
    }
  }

  /** How many blank texts of the deck, before n, have the same slide next as child j. */
  function Before(ns: seq<Node>, n: nat, base: string): nat
    requires n <= |ns|
  {
    if n == 0 then 0 else Before(ns, n - 1, base) + if ns[n - 1].Text? && BlankBase(ns, n - 1) == base then 1 else 0
  }

  lemma {:induction false} BlanksAreTexts(ns: seq<Node>, n: nat, base: string)
    requires AllKeyed(ns) && n <= |ns|
    ensures Blanks(ns, n, base) == Before(ns, n, base)
  {
    if n > 0 {
      assert !Refused(ns, n - 1);
      BlanksAreTexts(ns, n - 1, base);
    }
  }

  /** The keys: a slide's is its id, a blank text's is that of the slide it stands in front of (or "aux")
      with a number from the second one on, and every other child's is its position. */
  lemma KeysAre(ns: seq<Node>, j: nat)
    requires AllKeyed(ns) && j < |ns|
    ensures ns[j].Element? && IsSlideTag(ns[j].tag) ==>
      ns[j].slideId.Some? && KeyAt(ns, j) == Named("omid:" + ns[j].slideId.value)
    ensures ns[j].Other? || (ns[j].Element? && !IsSlideTag(ns[j].tag)) ==> KeyAt(ns, j) == Index(j)
    ensures ns[j].Text? ==>
      var n := Before(ns, j, BlankBase(ns, j));
      KeyAt(ns, j) == Named(BlankBase(ns, j) + if n == 0 then "" else ":" + Decimal(n))
    ensures forall k: nat, id :: SlideAhead(ns, j, k, id) ==> BlankBase(ns, j) == "omid-ws:" + id
    ensures !SlideComes(ns, j) ==> BlankBase(ns, j) == "omid-ws:aux"
  {
    assert !Refused(ns, j);
    BlanksAreTexts(ns, j, BlankBase(ns, j));
    if ns[j].Text? {
      NumberedParts(BlankBase(ns, j), Blanks(ns, j, BlankBase(ns, j)));
    }
    forall k: nat, id | SlideAhead(ns, j, k, id)
      ensures BlankBase(ns, j) == "omid-ws:" + id
    {
      NextSlideIdIs(ns, j, k, id);
      assert !Refused(ns, k);
    }
    if !SlideComes(ns, j) {
      NoSlideAhead(ns, j);
    }
  }

  lemma NumberedParts(base: string, n: nat)
    ensures Numbered(base, n) == base + if n == 0 then "" else ":" + Decimal(n)
  {
  }
}
