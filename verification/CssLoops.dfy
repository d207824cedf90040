/** The loops of scanUnquotedUrl, stripComments and importantify, proved to compute the functions of
    CssScanner. The loops keep an index into the whole text; the functions read its rest. */
module CssLoops {
  import opened Wrappers
  import opened CssScanner

  predicate PrevIdent(css: string, i: nat)
    requires i <= |css|
  {
    i > 0 && IsIdentChar(css[i - 1])
  }

  lemma UrlBodyStep(t: string, j: nat)
    requires j < |t|
    ensures t[j] != ')' && t[j] != '\\' ==> UrlBody(t[j..]) == 1 + UrlBody(t[j + 1..])
    ensures t[j] == '\\' && j + 1 == |t| ==> UrlBody(t[j..]) == 1
    ensures t[j] == '\\' && j + 1 < |t| ==> UrlBody(t[j..]) == 2 + UrlBody(t[j + 2..])
    ensures t[j] == ')' ==> UrlBody(t[j..]) == 1
  {
  }

  lemma QuoteAheadStep(t: string, j: nat)
    requires j < |t| && IsSpace(t[j])
    ensures QuoteAfterSpaces(t[j..]) == QuoteAfterSpaces(t[j + 1..])
  {
  }

  lemma QuoteAheadEnd(t: string, j: nat)
    requires j <= |t| && (j < |t| ==> !IsSpace(t[j]))
    ensures QuoteAfterSpaces(t[j..]) <==> j < |t| && IsQuote(t[j])
  {
  }

  /** -1, or the index behind the url token at i. */
  method ScanUnquotedUrl(css: string, i: nat) returns (end: int)
    requires i < |css|
    ensures end == if UrlAt(PrevIdent(css, i), css[i..]) then i + UrlLen(css[i..]) else -1
  {
    hide UrlBody, QuoteAfterSpaces;
    if !UrlHead(css[i..]) || PrevIdent(css, i) {
      return -1;
    }
    var t := css[i..][4..];
    var j := 0;
    while j < |t| && IsSpace(t[j])
      invariant 0 <= j <= |t|
      invariant QuoteAfterSpaces(t[j..]) == QuoteAfterSpaces(t)
      invariant j + UrlBody(t[j..]) == UrlBody(t)
    {
      QuoteAheadStep(t, j);
      UrlBodyStep(t, j);
      j := j + 1;
    }
    QuoteAheadEnd(t, j);
    if j < |t| && IsQuote(t[j]) {
      return -1;
    }
    while j < |t| && t[j] != ')'
      invariant 0 <= j <= |t| + 1
      invariant UrlBody(t) == if j <= |t| then j + UrlBody(t[j..]) else |t|
    {
      UrlBodyStep(t, j);
      if t[j] == '\\' {
        j := j + 1;
      }
      j := j + 1;
    }
    if j < |t| {
      UrlBodyStep(t, j);
    }
    return i + 4 + if j < |t| then j + 1 else |t|;
  }

  // ---- What ends a token -------------------------------------------------------------------

  lemma {:induction false} UrlBodyEnd(s: string)
    ensures UrlBody(s) < |s| ==> UrlBody(s) > 0 && s[UrlBody(s) - 1] == ')'
  {
    if s == "" || s[0] == ')' {
    } else if s[0] == '\\' {
      if |s| > 1 { UrlBodyEnd(s[2..]); }
    } else {
      UrlBodyEnd(s[1..]);
    }
  }

  lemma {:induction false} CommentBodyEnd(s: string)
    ensures CommentBody(s) < |s| ==> CommentBody(s) > 0 && s[CommentBody(s) - 1] == '/'
  {
    if |s| >= 2 && !(s[0] == '*' && s[1] == '/') { CommentBodyEnd(s[1..]); }
  }

  /** What the stripper still produces from i on; behind an escape i may pass the end by one. */
  ghost function StripFrom(css: string, i: nat, q: Option<char>): string {
    if i <= |css| then Strip(q, PrevIdent(css, i), css[i..]) else ""
  }

  /** Where the splitter still cuts from i on. */
  ghost function CutFrom(css: string, i: nat, q: Option<char>, depth: nat): Option<nat> {
    if i <= |css| then Cut(q, PrevIdent(css, i), css[i..], depth) else None
  }

  /** What precedes matters only to a url check. */
  lemma PrevIgnored(q: Option<char>, p: bool, p': bool, s: string, depth: nat)
    requires q.Some? || s == "" || p == p'
    ensures Strip(q, p, s) == Strip(q, p', s) && Cut(q, p, s, depth) == Cut(q, p', s, depth)
  {
  }

  lemma StepInString(css: string, i: nat, q: char, depth: nat)
    requires i < |css| && css[i] != '\\' && IsQuote(q)
    ensures var after := if css[i] == q then None else Some(q);
      && StripFrom(css, i, Some(q)) == [css[i]] + StripFrom(css, i + 1, after)
      && CutFrom(css, i, Some(q), depth) == Shift(CutFrom(css, i + 1, after, depth), 1)
  {
    var after := if css[i] == q then None else Some(q);
    assert css[i..][1..] == css[i + 1..];
    PrevIgnored(after, false, PrevIdent(css, i + 1), css[i + 1..], depth);
  }

  lemma StepEscape(css: string, i: nat, q: char, depth: nat)
    requires i < |css| && css[i] == '\\'
    ensures StripFrom(css, i, Some(q)) == css[i..i + EscapeLen(css[i..])] + StripFrom(css, i + 2, Some(q))
    ensures CutFrom(css, i, Some(q), depth) == Shift(CutFrom(css, i + 2, Some(q), depth), 2)
  {
    var s := css[i..];
    var n := EscapeLen(s);
    assert s[n..] == css[i + n..] && s[..n] == css[i..i + n];
    PrevIgnored(Some(q), false, PrevIdent(css, i + n), css[i + n..], depth);
  }

  lemma StepQuote(css: string, i: nat, depth: nat)
    requires i < |css| && IsQuote(css[i])
    ensures StripFrom(css, i, None) == [css[i]] + StripFrom(css, i + 1, Some(css[i]))
    ensures CutFrom(css, i, None, depth) == Shift(CutFrom(css, i + 1, Some(css[i]), depth), 1)
  {
  }

  lemma StepComment(css: string, i: nat)
    requires i < |css| && CommentAt(css[i..])
    ensures StripFrom(css, i, None) == " " + StripFrom(css, i + CommentLen(css[i..]), None)
  {
    var s := css[i..];
    var n := CommentLen(s);
    assert s[n..] == css[i + n..];
    CommentBodyEnd(s[2..]);
    if n < |s| {
      assert css[i + n - 1] == s[2..][n - 3];
    }
    PrevIgnored(None, false, PrevIdent(css, i + n), css[i + n..], 0);
  }

  /** Behind a url token no identifier character precedes, unless the text is at its end. */
  lemma BehindUrl(css: string, i: nat)
    requires i < |css| && UrlHead(css[i..])
    ensures (var n := UrlLen(css[i..]);
             && i + n <= |css| && css[i..][n..] == css[i + n..] && css[i..][..n] == css[i..i + n]
             && (css[i + n..] == "" || !PrevIdent(css, i + n)))
  {
    hide UrlBody;
    var s := css[i..];
    var n := UrlLen(s);
    assert s[n..] == css[i + n..] && s[..n] == css[i..i + n];
    UrlBodyEnd(s[4..]);
    if n < |s| {
      assert css[i + n - 1] == s[4..][n - 5];
    }
  }

  lemma StepUrl(css: string, i: nat, depth: nat)
    requires i < |css| && UrlAt(PrevIdent(css, i), css[i..])
    ensures var n := UrlLen(css[i..]);
      && StripFrom(css, i, None) == css[i..i + n] + StripFrom(css, i + n, None)
      && CutFrom(css, i, None, depth) == Shift(CutFrom(css, i + n, None, depth), n)
  {
    var s := css[i..];
    var n := UrlLen(s);
    UrlStands(PrevIdent(css, i), s, depth);
    hide Strip, Cut, UrlLen, UrlAt;
    BehindUrl(css, i);
    PrevIgnored(None, false, PrevIdent(css, i + n), css[i + n..], depth);
  }

  /** Both scanners step over a url token. */
  lemma UrlStands(prev: bool, s: string, depth: nat)
    requires s != "" && UrlAt(prev, s)
    ensures Strip(None, prev, s) == s[..UrlLen(s)] + Strip(None, false, s[UrlLen(s)..])
    ensures Cut(None, prev, s, depth) == Shift(Cut(None, false, s[UrlLen(s)..], depth), UrlLen(s))
  {
    hide UrlBody, QuoteAfterSpaces;
  }

  lemma StepChar(css: string, i: nat, depth: nat)
    requires i < |css| && !IsQuote(css[i]) && !UrlAt(PrevIdent(css, i), css[i..])
    ensures !CommentAt(css[i..]) ==> StripFrom(css, i, None) == [css[i]] + StripFrom(css, i + 1, None)
    ensures css[i] == '(' ==> CutFrom(css, i, None, depth) == Shift(CutFrom(css, i + 1, None, depth + 1), 1)
    ensures css[i] == ')' ==>
      CutFrom(css, i, None, depth) == Shift(CutFrom(css, i + 1, None, if depth == 0 then 0 else depth - 1), 1)
    ensures css[i] != '(' && css[i] != ')' && !(css[i] == ';' && depth == 0) ==>
      CutFrom(css, i, None, depth) == Shift(CutFrom(css, i + 1, None, depth), 1)
    ensures css[i] == ';' && depth == 0 ==> CutFrom(css, i, None, depth) == Some(0)
  {
  }

  // ---- stripComments -----------------------------------------------------------------------

  lemma StripFromEnds(css: string, i: nat, q: Option<char>)
    ensures StripFrom(css, 0, None) == StripComments(css)
    ensures i >= |css| ==> StripFrom(css, i, q) == ""
  {
  }

  lemma Emit(out: string, piece: string, rest: string, before: string, whole: string)
    requires before == piece + rest && out + before == whole
    ensures (out + piece) + rest == whole
  {
  }

  method StripCommentsLoop(css: string) returns (out: string)
    ensures out == StripComments(css)
  {
    hide Strip, StripFrom, StripComments, UrlBody, QuoteAfterSpaces, CommentBody, UrlAt;
    out := "";
    var quote: Option<char> := None;
    var i := 0;
    StripFromEnds(css, i, quote);
    ghost var whole := StripComments(css);
    while i < |css|
      invariant (quote.Some? ==> IsQuote(quote.value))
      invariant out + StripFrom(css, i, quote) == whole
      decreases |css| + 2 - i
    {
      var c := css[i];
      ghost var before := StripFrom(css, i, quote);
      if quote.Some? {
        if c == '\\' {
          StepEscape(css, i, quote.value, 0);
          var piece := css[i..i + EscapeLen(css[i..])];
          Emit(out, piece, StripFrom(css, i + 2, quote), before, whole);
          out := out + piece;
          i := i + 1;
        } else {
          StepInString(css, i, quote.value, 0);
          if c == quote.value {
            quote := None;
          }
          Emit(out, [c], StripFrom(css, i + 1, quote), before, whole);
          out := out + [c];
        }
      } else if IsQuote(c) {
        StepQuote(css, i, 0);
        quote := Some(c);
        Emit(out, [c], StripFrom(css, i + 1, quote), before, whole);
        out := out + [c];
      } else if CommentAt(css[i..]) {
        StepComment(css, i);
        var n := CommentLen(css[i..]);
        Emit(out, " ", StripFrom(css, i + n, None), before, whole);
        out := out + " ";
        i := i + n - 1;
      } else {
        var end := ScanUnquotedUrl(css, i);
        if end == -1 {
          StepChar(css, i, 0);
          Emit(out, [c], StripFrom(css, i + 1, None), before, whole);
          out := out + [c];
        } else {
          StepUrl(css, i, 0);
          Emit(out, css[i..end], StripFrom(css, end, None), before, whole);
          out := out + css[i..end];
          i := end - 1;
        }
      }
      i := i + 1;
    }
    StripFromEnds(css, i, quote);
  }

  // ---- importantify ------------------------------------------------------------------------

  /** The declarations still to come when the scan stands at i inside the one begun at start. */
  ghost function DeclarationsFrom(css: string, start: nat, i: nat, cut: Option<nat>): seq<string>
    requires start <= i && start <= |css|
  {
    if cut.Some? && i + cut.value < |css|
    then [css[start..i + cut.value]] + Declarations(css[i + cut.value + 1..])
    else [css[start..]]
  }

  lemma DeclarationsAtEnd(css: string, start: nat, i: nat, q: Option<char>, depth: nat)
    requires start <= |css| <= i
    ensures DeclarationsFrom(css, start, i, CutFrom(css, i, q, depth)) == [css[start..]]
  {
  }

  lemma DeclarationsOf(s: string)
    ensures var cut := Cut(None, false, s, 0);
      if cut.Some? then cut.value < |s| && Declarations(s) == [s[..cut.value]] + Declarations(s[cut.value + 1..])
      else Declarations(s) == [s]
  {
    hide Cut;
    CutIsSemicolon(None, false, s, 0);
  }

  lemma DeclarationsAtStart(css: string, start: nat)
    requires start <= |css| && !PrevIdent(css, start)
    ensures DeclarationsFrom(css, start, start, CutFrom(css, start, None, 0)) == Declarations(css[start..])
  {
    hide Cut, Declarations;
    DeclarationsOf(css[start..]);
    var cut := CutFrom(css, start, None, 0);
    if cut.Some? {
      assert css[start..][..cut.value] == css[start..start + cut.value];
      assert css[start..][cut.value + 1..] == css[start + cut.value + 1..];
    }
  }

  /** Advancing without a cut changes nothing. */
  lemma Advance(css: string, start: nat, i: nat, j: nat, cut: Option<nat>, cut': Option<nat>)
    requires start <= i <= j && start <= |css| && cut == Shift(cut', j - i)
    ensures DeclarationsFrom(css, start, i, cut) == DeclarationsFrom(css, start, j, cut')
  {
  }

  lemma CutHere(css: string, start: nat, i: nat)
    requires start <= i < |css|
    ensures DeclarationsFrom(css, start, i, Some(0)) == [css[start..i]] + Declarations(css[i + 1..])
  {
    assert i + 0 == i;
  }

  /** A top-level ';' at i ends the declaration begun at start. */
  lemma SplitHere(css: string, start: nat, i: nat, decls: seq<string>)
    requires start <= i < |css| && css[i] == ';'
    requires decls + DeclarationsFrom(css, start, i, Some(0)) == Declarations(css)
    ensures (decls + [css[start..i]]) + DeclarationsFrom(css, i + 1, i + 1, CutFrom(css, i + 1, None, 0)) ==
            Declarations(css)
  {
    hide *;
    CutHere(css, start, i);
    assert !PrevIdent(css, i + 1) by { AfterSemicolon(css, i); }
    DeclarationsAtStart(css, i + 1);
    Regroup(decls, [css[start..i]], Declarations(css[i + 1..]));
  }

  lemma AfterSemicolon(css: string, i: nat)
    requires i < |css| && css[i] == ';'
    ensures !PrevIdent(css, i + 1)
  {
  }

  lemma Regroup(a: seq<string>, b: seq<string>, c: seq<string>)
    ensures (a + b) + c == a + (b + c)
  {
  }

  method ImportantifyLoop(text: string) returns (r: string)
    ensures r == Importantify(text)
  {
    hide Cut, CutFrom, Declarations, DeclarationsFrom, UrlBody, QuoteAfterSpaces, Kept, Join, StripComments;
    var css := StripCommentsLoop(text);
    var decls: seq<string> := [];
    var start, depth, i := 0, 0, 0;
    var quote: Option<char> := None;
    assert css[0..] == css;
    DeclarationsAtStart(css, 0);
    while i < |css|
      invariant 0 <= start <= i && start <= |css| && depth >= 0 && (quote.Some? ==> IsQuote(quote.value))
      invariant decls + DeclarationsFrom(css, start, i, CutFrom(css, i, quote, depth)) == Declarations(css)
      decreases |css| + 2 - i
    {
      var c := css[i];
      ghost var at, cut := i, CutFrom(css, i, quote, depth);
      if quote.Some? {
        if c == '\\' {
          StepEscape(css, i, quote.value, depth);
          i := i + 1;
        } else {
          StepInString(css, i, quote.value, depth);
          if c == quote.value {
            quote := None;
          }
        }
      } else if IsQuote(c) {
        StepQuote(css, i, depth);
        quote := Some(c);
      } else if c == '(' {
        StepChar(css, i, depth);
        depth := depth + 1;
      } else if c == ')' {
        StepChar(css, i, depth);
        depth := if depth == 0 then 0 else depth - 1;
      } else if c == ';' && depth == 0 {
        StepChar(css, i, depth);
        SplitHere(css, start, i, decls);
        decls := decls + [css[start..i]];
        start := i + 1;
        i := i + 1;
        continue;
      } else {
        var end := ScanUnquotedUrl(css, i);
        if end != -1 {
          StepUrl(css, i, depth);
          i := end - 1;
        } else {
          StepChar(css, i, depth);
        }
      }
      i := i + 1;
      Advance(css, start, at, i, cut, CutFrom(css, i, quote, depth));
    }
    DeclarationsAtEnd(css, start, i, quote, depth);
    decls := decls + [css[start..]];
    r := Join(Kept(decls));
  }
}
