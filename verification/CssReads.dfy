/** What stripComments and importantify make of comments, strings, urls, parentheses and declarations,
    each given by its own text: where it ends is said by its characters, not by the scanners. */
module CssReads {
  import opened Wrappers
  import opened CssScanner
  import opened CssLaws

  // ---- Comments ----------------------------------------------------------------------------

  predicate ClosesCommentAt(s: string, i: nat) { i + 1 < |s| && s[i] == '*' && s[i + 1] == '/' }

  /** "*" + "/" comes at the end of `body` + "*" + "/" and not before. */
  predicate CommentText(body: string) { forall i: nat :: i < |body| ==> !ClosesCommentAt(body + "*/", i) }

  lemma {:induction false} CommentEnds(body: string, rest: string)
    requires CommentText(body)
    ensures CommentBody(body + "*/" + rest) == |body| + 2
    decreases |body|
  {
    var s := body + "*/" + rest;
    if body != "" {
      assert !ClosesCommentAt(body + "*/", 0) && s[0] == (body + "*/")[0] && s[1] == (body + "*/")[1];
      forall i: nat | i < |body| - 1
        ensures !ClosesCommentAt(body[1..] + "*/", i)
      {
        assert !ClosesCommentAt(body + "*/", i + 1);
      }
      CommentEnds(body[1..], rest);
      assert s[1..] == body[1..] + "*/" + rest;
    }
  }

  lemma {:induction false} CommentNeverEnds(body: string)
    requires forall i: nat :: !ClosesCommentAt(body, i)
    ensures CommentBody(body) == |body|
    decreases |body|
  {
    if |body| >= 2 {
      assert !ClosesCommentAt(body, 0);
      forall i: nat
        ensures !ClosesCommentAt(body[1..], i)
      {
        assert !ClosesCommentAt(body, i + 1);
      }
      CommentNeverEnds(body[1..]);
    }
  }

  lemma CommentIsSpace(prev: bool, body: string, rest: string)
    ensures CommentText(body) ==> Strip(None, prev, "/*" + body + "*/" + rest) == " " + Strip(None, false, rest)
    ensures (forall i: nat :: !ClosesCommentAt(body, i)) ==> Strip(None, prev, "/*" + body) == " "
  {
    if CommentText(body) {
      var s := "/*" + body + "*/" + rest;
      CommentEnds(body, rest);
      assert s[2..] == body + "*/" + rest;
      assert s[|body| + 4..] == rest;
    }
    if forall i: nat :: !ClosesCommentAt(body, i) {
      CommentNeverEnds(body);
      assert ("/*" + body)[2..] == body;
    }
  }

  /** Scanning `s` meets no comment and ends outside strings and urls. */
  ghost predicate Settled(q: Option<char>, prev: bool, s: string)
    decreases |s|
  {
    if s == "" then q.None?
    else if q.Some? then
      if s[0] == '\\' then |s| > 1 && Settled(q, false, s[2..])
      else Settled(if s[0] == q.value then None else q, false, s[1..])
    else if IsQuote(s[0]) then Settled(Some(s[0]), false, s[1..])
    else if CommentAt(s) then false
    else if UrlAt(prev, s) then UrlClosed(s[4..]) && Settled(None, false, s[UrlLen(s)..])
    else Settled(None, IsIdentChar(s[0]), s[1..])
  }

  lemma {:induction false} StripBehind(q: Option<char>, prev: bool, p: string, x: string, y: string)
    requires Settled(q, prev, p) && x != "" && x[0] == '/' && forall b: bool :: Strip(None, b, x) == y
    ensures Strip(q, prev, p + x) == p + y
    decreases |p|
  {
    if p == "" {
      assert p + x == x && p + y == y;
    } else if q.Some? {
      StripBehindQuoted(q.value, prev, p, x, y);
    } else if IsQuote(p[0]) {
      SplitConcat(p, 1, x, y);
      StripBehind(Some(p[0]), false, p[1..], x, y);
    } else if UrlAt(prev, p) {
      UrlExtends(prev, p, x);
      SplitConcat(p, UrlLen(p), x, y);
      StripBehind(None, false, p[UrlLen(p)..], x, y);
    } else {
      StripBehindPlain(prev, p, x, y);
    }
  }

  lemma {:induction false} StripBehindPlain(prev: bool, p: string, x: string, y: string)
    requires p != "" && !IsQuote(p[0]) && !UrlAt(prev, p) && Settled(None, prev, p)
    requires x != "" && x[0] == '/' && forall b: bool :: Strip(None, b, x) == y
    ensures Strip(None, prev, p + x) == p + y
    decreases |p|, 0
  {
    assert Settled(None, IsIdentChar(p[0]), p[1..]) && !CommentAt(p);
    hide UrlAt, Strip, Settled;
    NoUrlExtends(prev, p, x);
    assert !CommentAt(p + x) && (p + x)[0] == p[0];
    PlainStrip(prev, p + x);
    SplitConcat(p, 1, x, y);
    StripBehind(None, IsIdentChar(p[0]), p[1..], x, y);
    assert [p[0]] == p[..1];
  }

  lemma {:induction false} StripBehindQuoted(q: char, prev: bool, p: string, x: string, y: string)
    requires p != "" && Settled(Some(q), prev, p)
    requires x != "" && x[0] == '/' && forall b: bool :: Strip(None, b, x) == y
    ensures Strip(Some(q), prev, p + x) == p + y
    decreases |p|, 0
  {
    var n := if p[0] == '\\' then 2 else 1;
    assert n <= |p| && Settled(if p[0] == q && n == 1 then None else Some(q), false, p[n..]);
    hide Strip, Settled;
    assert (p + x)[0] == p[0];
    QuotedStrip(q, prev, p + x);
    SplitConcat(p, n, x, y);
    StripBehind(if p[0] == q && n == 1 then None else Some(q), false, p[n..], x, y);
  }

  /** A comment becomes one space, at the front or behind any settled text, and the text behind it is
      read afresh; an unclosed comment extends to the end. */
  lemma CommentsBecomeSpaces(p: string, body: string, rest: string)
    requires Settled(None, false, p)
    ensures CommentText(body) ==> StripComments(p + ("/*" + body + "*/" + rest)) == p + (" " + StripComments(rest))
    ensures (forall i: nat :: !ClosesCommentAt(body, i)) ==> StripComments(p + ("/*" + body)) == p + " "
  {
    hide Strip, Settled;
    CommentIsSpace(false, body, rest);
    CommentIsSpace(true, body, rest);
    if CommentText(body) {
      StripBehind(None, false, p, "/*" + body + "*/" + rest, " " + Strip(None, false, rest));
    }
    if forall i: nat :: !ClosesCommentAt(body, i) {
      StripBehind(None, false, p, "/*" + body, " ");
    }
  }

  // ---- Strings -----------------------------------------------------------------------------

  /** Characters other than the quote and the backslash, and escapes of any character. */
  predicate StringText(q: char, body: string) {
    || body == ""
    || (body[0] == '\\' && |body| > 1 && StringText(q, body[2..]))
    || (body[0] != '\\' && body[0] != q && StringText(q, body[1..]))
  }

  /** One step of the string, of every scan. */
  lemma StringStep(q: char, body: string, x: string) returns (n: nat)
    requires body != "" && StringText(q, body)
    ensures 0 < n <= |body| && StringText(q, body[n..]) && n == if body[0] == '\\' then 2 else 1
    ensures (body + x)[n..] == body[n..] + x && (body + x)[..n] == body[..n] && (body + x)[0] == body[0]
    ensures body[0] != q || body[0] == '\\'
    ensures forall y: string :: body[..n] + (body[n..] + y) == body + y
  {
    n := if body[0] == '\\' then 2 else 1;
    forall y: string
      ensures body[..n] + (body[n..] + y) == body + y
    {
      SplitConcat(body, n, x, y);
    }
  }

  lemma {:induction false} StringStripped(q: char, body: string, rest: string)
    requires (q == '"' || q == '\'') && StringText(q, body)
    ensures Strip(Some(q), false, body + ([q] + rest)) == body + ([q] + Strip(None, false, rest))
    decreases |body|
  {
    var x := [q] + rest;
    if body == "" {
      assert body + x == x && x[1..] == rest;
    } else {
      var n := StringStep(q, body, x);
      QuotedStrip(q, false, body + x);
      hide Strip, StringText;
      StringStripped(q, body[n..], rest);
    }
  }

  lemma {:induction false} StringCut(q: char, body: string, rest: string, depth: nat)
    requires (q == '"' || q == '\'') && StringText(q, body)
    ensures Cut(Some(q), false, body + ([q] + rest), depth) == Shift(Cut(None, false, rest, depth), |body| + 1)
    decreases |body|
  {
    var x := [q] + rest;
    if body == "" {
      assert body + x == x && x[1..] == rest;
    } else {
      var n := StringStep(q, body, x);
      QuotedCut(q, false, body + x, depth);
      hide Cut, StringText;
      StringCut(q, body[n..], rest, depth);
    }
  }

  lemma QuotedSettled(q: char, s: string)
    requires s != "" && (s[0] == '\\' ==> |s| > 1)
    ensures Settled(Some(q), false, s) <==>
      Settled(if s[0] == q && s[0] != '\\' then None else Some(q), false, s[if s[0] == '\\' then 2 else 1..])
  {
  }

  lemma {:induction false} StringSettled(q: char, body: string, rest: string)
    requires (q == '"' || q == '\'') && StringText(q, body)
    ensures Settled(Some(q), false, body + ([q] + rest)) <==> Settled(None, false, rest)
    decreases |body|
  {
    var x := [q] + rest;
    if body == "" {
      assert body + x == x && x[1..] == rest;
      QuotedSettled(q, x);
    } else {
      var n := StringStep(q, body, x);
      QuotedSettled(q, body + x);
      hide Settled, StringText;
      StringSettled(q, body[n..], rest);
    }
  }

  /** Whatever a string contains, it is copied as it is, and a ';' in it does not separate. */
  lemma StringsAreKept(q: char, body: string, rest: string, prev: bool, depth: nat)
    requires (q == '"' || q == '\'') && StringText(q, body)
    ensures (var s := [q] + (body + ([q] + rest));
             && Strip(None, prev, s) == [q] + (body + ([q] + Strip(None, false, rest)))
             && Cut(None, prev, s, depth) == Shift(Cut(None, false, rest, depth), |body| + 2)
             && (Settled(None, prev, s) <==> Settled(None, false, rest)))
  {
    StringStripped(q, body, rest);
    StringCut(q, body, rest, depth);
    StringSettled(q, body, rest);
    assert ([q] + (body + ([q] + rest)))[1..] == body + ([q] + rest);
  }

  // ---- Urls --------------------------------------------------------------------------------

  predicate UrlText(body: string) {
    || body == ""
    || (body[0] == '\\' && |body| > 1 && UrlText(body[2..]))
    || (body[0] != '\\' && body[0] != ')' && UrlText(body[1..]))
  }

  predicate Blank(s: string) { forall i :: 0 <= i < |s| ==> IsSpace(s[i]) }

  predicate UrlOpening(s: string) {
    |s| == 4 && (s[0] == 'u' || s[0] == 'U') && (s[1] == 'r' || s[1] == 'R') && (s[2] == 'l' || s[2] == 'L') && s[3] == '('
  }

  lemma {:induction false} UrlTextEnds(body: string, rest: string)
    requires UrlText(body)
    ensures UrlBody(body + (")" + rest)) == |body| + 1 && UrlBody(body) == |body|
    ensures UrlClosed(body + (")" + rest)) && !UrlClosed(body)
    decreases |body|
  {
    var s := body + (")" + rest);
    if body != "" {
      var n := if body[0] == '\\' then 2 else 1;
      assert s[n..] == body[n..] + (")" + rest);
      UrlTextEnds(body[n..], rest);
    }
  }

  lemma {:induction false} QuoteIsAhead(gap: string, s: string)
    requires Blank(gap)
    ensures QuoteAfterSpaces(gap + s) <==> QuoteAfterSpaces(s)
    decreases |gap|
  {
    if gap == "" {
      assert gap + s == s;
    } else {
      assert (gap + s)[1..] == gap[1..] + s;
      QuoteIsAhead(gap[1..], s);
    }
  }

  lemma UrlOpens(opening: string, gap: string, tail: string)
    requires UrlOpening(opening) && Blank(gap) && tail != "" && !IsSpace(tail[0])
    ensures (var s := opening + (gap + tail);
             && UrlHead(s) && !UrlAt(true, s) && (UrlAt(false, s) <==> tail[0] != '"' && tail[0] != '\''))
  {
    var s := opening + (gap + tail);
    assert s[4..] == gap + tail && s[..4] == opening;
    QuoteIsAhead(gap, tail);
    hide QuoteAfterSpaces;
    QuoteIsHere(tail);
  }

  lemma QuoteIsHere(tail: string)
    requires tail != "" && !IsSpace(tail[0])
    ensures QuoteAfterSpaces(tail) <==> tail[0] == '"' || tail[0] == '\''
  {
  }

  lemma UrlEnds(opening: string, body: string, rest: string)
    requires UrlOpening(opening) && UrlText(body)
    ensures (var s := opening + (body + (")" + rest)); UrlHead(s) && UrlLen(s) == 4 + |body| + 1)
    ensures (var open := opening + body; UrlHead(open) && UrlLen(open) == |open|)
  {
    assert (opening + (body + (")" + rest)))[4..] == body + (")" + rest) && (opening + body)[4..] == body;
    UrlTextEnds(body, rest);
    hide UrlBody;
  }

  /** An unquoted url runs to its first unescaped ')', or to the end; with an identifier character
      before it, or a quote behind its parenthesis and spaces, it is none. */
  lemma UrlsAre(opening: string, gap: string, body: string, rest: string)
    requires UrlOpening(opening) && Blank(gap) && UrlText(gap + body)
    requires body != "" && !IsSpace(body[0])
    ensures (var s := opening + (gap + body + (")" + rest)); var open := opening + (gap + body);
             && !UrlAt(true, s) && !UrlAt(true, open)
             && (UrlAt(false, s) <==> body[0] != '"' && body[0] != '\'')
             && (UrlAt(false, open) <==> body[0] != '"' && body[0] != '\'')
             && UrlHead(s) && UrlLen(s) == 4 + |gap + body| + 1 && UrlHead(open) && UrlLen(open) == |open|)
  {
    hide UrlAt, UrlLen, UrlText, UrlHead, UrlOpening;
    assert gap + body + (")" + rest) == gap + (body + (")" + rest));
    assert (body + (")" + rest))[0] == body[0];
    UrlOpens(opening, gap, body);
    UrlOpens(opening, gap, body + (")" + rest));
    UrlEnds(opening, gap + body, rest);
  }

  /** Both scanners step over a url token. */
  lemma UrlPassed(s: string, depth: nat)
    requires s != "" && UrlAt(false, s)
    ensures Strip(None, false, s) == s[..UrlLen(s)] + Strip(None, false, s[UrlLen(s)..])
    ensures Cut(None, false, s, depth) == Shift(Cut(None, false, s[UrlLen(s)..], depth), UrlLen(s))
  {
    hide UrlBody, QuoteAfterSpaces;
  }

  lemma NothingLeft(s: string, depth: nat)
    ensures Strip(None, false, s[|s|..]) == "" && Cut(None, false, s[|s|..], depth) == None && s[..|s|] + "" == s
  {
  }

  /** An unquoted url is copied as it is, and what would open a comment or separate is part of it. */
  lemma UrlsAreKept(opening: string, gap: string, body: string, rest: string, depth: nat)
    requires UrlOpening(opening) && Blank(gap) && UrlText(gap + body)
    requires body != "" && !IsSpace(body[0]) && body[0] != '"' && body[0] != '\''
    ensures (var open := opening + (gap + body);
             && Strip(None, false, open + (")" + rest)) == open + (")" + Strip(None, false, rest))
             && Cut(None, false, open + (")" + rest), depth) == Shift(Cut(None, false, rest, depth), |open| + 1)
             && Strip(None, false, open) == open && Cut(None, false, open, depth) == None)
  {
    var open := opening + (gap + body);
    var s := open + (")" + rest);
    assert |opening| == 4;
    hide UrlAt, UrlLen, UrlText, UrlHead, UrlOpening, Strip, Cut, Blank;
    assert s == opening + (gap + body + (")" + rest));
    UrlsAre(opening, gap, body, rest);
    assert s[|open| + 1..] == rest && s[..|open| + 1] == open + ")";
    UrlPassed(s, depth);
    UrlPassed(open, depth);
    NothingLeft(open, depth);
    assert (open + ")") + Strip(None, false, rest) == open + (")" + Strip(None, false, rest));
  }

  // ---- Parentheses and plain text ----------------------------------------------------------

  /** Text that no scan reacts to, save to ';' outside parentheses. */
  predicate PlainChar(c: char) {
    c != '"' && c != '\'' && c != '(' && c != ')' && c != '/' && c != 'u' && c != 'U' && c != '\\'
  }

  predicate Plain(s: string) { forall i :: 0 <= i < |s| ==> PlainChar(s[i]) }

  predicate NoSemicolon(s: string) { forall i :: 0 <= i < |s| ==> s[i] != ';' }

  lemma {:induction false} PlainIsPassed(prev: bool, p: string, depth: nat, rest: string)
    requires Plain(p) && (depth > 0 || NoSemicolon(p))
    ensures exists b :: Cut(None, prev, p + rest, depth) == Shift(Cut(None, b, rest, depth), |p|)
    ensures Piece(None, prev, p, depth, depth == 0)
    decreases |p|
  {
    if p == "" {
      assert p + rest == rest;
      assert Cut(None, prev, p + rest, depth) == Shift(Cut(None, prev, rest, depth), |p|);
    } else {
      assert (p + rest)[1..] == p[1..] + rest && PlainChar(p[0]);
      PlainIsPassed(IsIdentChar(p[0]), p[1..], depth, rest);
    }
  }

  /** A ';' inside parentheses does not separate, and a stray ')' closes nothing. */
  lemma ParenthesesShield(prev: bool, body: string, depth: nat, rest: string)
    requires Plain(body)
    ensures Cut(None, prev, "(" + (body + (")" + rest)), depth) == Shift(Cut(None, false, rest, depth), |body| + 2)
    ensures Cut(None, prev, ")" + rest, 0) == Shift(Cut(None, false, rest, 0), 1)
  {
    var s := "(" + (body + (")" + rest));
    assert s[1..] == body + (")" + rest) && (")" + rest)[1..] == rest;
    PlainIsPassed(false, body, depth + 1, ")" + rest);
    assert Cut(None, false, ")" + rest, depth + 1) == Shift(Cut(None, false, rest, depth), 1);
    assert Cut(None, true, ")" + rest, depth + 1) == Shift(Cut(None, false, rest, depth), 1);
  }

  /** Outside all of these a ';' separates. */
  lemma SemicolonsSeparate(p: string, rest: string)
    requires Plain(p) && NoSemicolon(p)
    ensures Declarations(p + ";" + rest) == [p] + Declarations(rest) && Declarations(p) == [p]
  {
    PlainIsPassed(false, p, 0, "");
    DeclarationsBehindPiece(p, rest);
    ClosedIsOpen(None, false, p, 0);
    NoCutInPiece(None, false, p, 0);
  }

  // ---- Declarations ------------------------------------------------------------------------

  /** White space and line ends by code point, and the characters of identifiers. */
  lemma CharactersAre(c: char)
    ensures IsSpace(c) <==>
      || 9 <= c as int <= 13 || 8192 <= c as int <= 8202
      || c as int in {32, 160, 5760, 8232, 8233, 8239, 8287, 12288, 65279}
    ensures IsIdentChar(c) <==>
      48 <= c as int <= 57 || 65 <= c as int <= 90 || 97 <= c as int <= 122 || c == '-' || c == '_'
  {
  }

  lemma {:induction false} TrimStartIs(s: string) returns (gap: string)
    ensures Blank(gap) && s == gap + TrimStart(s) && (TrimStart(s) != "" ==> !IsSpace(TrimStart(s)[0]))
    decreases |s|
  {
    if s != "" && IsSpace(s[0]) {
      gap := TrimStartIs(s[1..]);
      gap := [s[0]] + gap;
    } else {
      gap := "";
    }
  }

  lemma {:induction false} TrimEndIs(s: string) returns (gap: string)
    ensures Blank(gap) && s == TrimEnd(s) + gap && (TrimEnd(s) != "" ==> !IsSpace(TrimEnd(s)[|TrimEnd(s)| - 1]))
    decreases |s|
  {
    if s != "" && IsSpace(s[|s| - 1]) {
      gap := TrimEndIs(s[..|s| - 1]);
      gap := gap + [s[|s| - 1]];
    } else {
      gap := "";
    }
  }

  /** Trimming takes away the spaces at both ends and nothing else. */
  lemma TrimIs(s: string) returns (front: string, back: string)
    ensures Blank(front) && Blank(back) && s == front + Trim(s) + back
    ensures Trim(s) != "" ==> !IsSpace(Trim(s)[0]) && !IsSpace(Trim(s)[|Trim(s)| - 1])
    ensures Trim(s) == "" <==> Blank(s)
  {
    front := TrimStartIs(s);
    var t := TrimStart(s);
    hide TrimStart, TrimEnd;
    back := TrimEndIs(t);
    assert s == front + (Trim(s) + back) == front + Trim(s) + back;
    if Trim(s) != "" {
      assert t[0] == Trim(s)[0] && s[|front|] == t[0];
    } else {
      assert s == front + back;
    }
  }

  /** "important" in any mixture of cases. */
  predicate ImportantWord(w: string) {
    |w| == 9 && forall i :: 0 <= i < 9 ==> w[i] == "important"[i] || w[i] == "IMPORTANT"[i]
  }

  lemma LowerIsImportant(w: string)
    requires |w| == 9
    ensures Lower(w) == "important" <==> ImportantWord(w)
  {
    if Lower(w) == "important" {
      forall i | 0 <= i < 9
        ensures w[i] == "important"[i] || w[i] == "IMPORTANT"[i]
      {
        assert Lower(w)[i] == "important"[i];
      }
    }
    if ImportantWord(w) {
      forall i | 0 <= i < 9
        ensures Lower(w)[i] == "important"[i]
      {
      }
    }
  }

  ghost predicate MarkedBy(d: string, front: string, gap: string, word: string) {
    d == front + "!" + gap + word && Blank(gap) && ImportantWord(word)
  }

  ghost predicate Marked(d: string) { exists front, gap, word :: MarkedBy(d, front, gap, word) }

  lemma {:induction false} TrimEndOf(s: string, gap: string)
    requires Blank(gap) && s != "" && !IsSpace(s[|s| - 1])
    ensures TrimEnd(s + gap) == s
    decreases |gap|
  {
    if gap == "" {
      assert s + gap == s;
    } else {
      assert (s + gap)[..|s + gap| - 1] == s + gap[..|gap| - 1];
      TrimEndOf(s, gap[..|gap| - 1]);
    }
  }

  /** A declaration counts as important if and only if it ends in "!", any spaces, and "important". */
  lemma ImportantIff(d: string)
    ensures EndsImportant(d) <==> Marked(d)
  {
    if EndsImportant(d) {
      var head, word := d[..|d| - 9], d[|d| - 9..];
      LowerIsImportant(word);
      var gap := TrimEndIs(head);
      var bang := TrimEnd(head);
      assert bang == bang[..|bang| - 1] + "!";
      assert MarkedBy(d, bang[..|bang| - 1], gap, word);
    }
    if front, gap, word :| MarkedBy(d, front, gap, word) {
      assert d[..|d| - 9] == (front + "!") + gap && d[|d| - 9..] == word;
      LowerIsImportant(word);
      TrimEndOf(front + "!", gap);
    }
  }

  /** Blank declarations vanish; any other is trimmed, and gets " !important" unless it is marked. */
  lemma KeptIs(d: string, rest: seq<string>)
    ensures Kept([]) == []
    ensures Blank(d) ==> Kept([d] + rest) == Kept(rest)
    ensures !Blank(d) ==> Kept([d] + rest) == [if Marked(Trim(d)) then Trim(d) else Trim(d) + " !important"] + Kept(rest)
  {
    assert ([d] + rest)[1..] == rest;
    var front, back := TrimIs(d);
    ImportantIff(Trim(d));
    hide EndsImportant, Trim;
  }

  lemma JoinIs(d: string, rest: seq<string>)
    ensures Join([]) == "" && Join([d]) == d
    ensures rest != [] ==> Join([d] + rest) == d + ";" + Join(rest)
  {
    assert ([d] + rest)[1..] == rest;
  }

  lemma {:induction false} KeptNotEmpty(ds: seq<string>)
    ensures Join(Kept(ds)) == "" <==> Kept(ds) == []
    decreases |ds|
  {
    if ds != [] {
      assert ds == [ds[0]] + ds[1..];
      KeptNotEmpty(ds[1..]);
      KeptIs(ds[0], ds[1..]);
      hide Kept, Join, Marked, Blank, Trim;
      if !Blank(ds[0]) {
        JoinIs(Kept(ds)[0], Kept(ds[1..]));
        assert Kept(ds[1..]) == [] ==> Kept(ds) == [Kept(ds)[0]];
        var front, back := TrimIs(ds[0]);
      }
    }
  }

  // ---- importantify, text by text ----------------------------------------------------------

  /** A comment in front makes no difference. */
  lemma CommentsVanish(body: string, rest: string)
    requires CommentText(body)
    ensures Importantify("/*" + body + "*/" + rest) == Importantify(rest)
  {
    CommentIsSpace(false, body, rest);
    SpaceVanishes(Strip(None, false, rest));
    hide Strip, Kept, Join, Declarations;
    assert StripComments("/*" + body + "*/" + rest) == " " + StripComments(rest);
  }

  lemma SpaceKept(d: string, rest: seq<string>)
    ensures Kept([" " + d] + rest) == Kept([d] + rest)
  {
    assert ([d] + rest)[1..] == rest && ([" " + d] + rest)[1..] == rest;
    assert (" " + d)[1..] == d && TrimStart(" " + d) == TrimStart(d);
    hide TrimStart, TrimEnd, Finish;
  }

  lemma SpaceCut(s: string)
    ensures Cut(None, false, " " + s, 0) == Shift(Cut(None, false, s, 0), 1)
  {
    assert (" " + s)[1..] == s;
  }

  lemma SpaceVanishes(s: string)
    ensures Kept(Declarations(" " + s)) == Kept(Declarations(s))
  {
    var t := " " + s;
    SpaceCut(s);
    hide Cut, Kept, Declarations;
    DeclarationsSplit(s);
    DeclarationsSplit(t);
    var cut := Cut(None, false, s, 0);
    if cut.Some? {
      assert t[..cut.value + 1] == " " + s[..cut.value] && t[cut.value + 2..] == s[cut.value + 1..];
      SpaceKept(s[..cut.value], Declarations(s[cut.value + 1..]));
    } else {
      assert [s] + [] == [s] && [t] + [] == [t];
      SpaceKept(s, []);
    }
  }

  lemma DeclarationsSplit(s: string)
    ensures var cut := Cut(None, false, s, 0);
      if cut.Some? then cut.value < |s| && Declarations(s) == [s[..cut.value]] + Declarations(s[cut.value + 1..])
      else Declarations(s) == [s]
  {
    hide Cut;
    CutIsSemicolon(None, false, s, 0);
  }

  lemma StripSeparator(rest: string)
    ensures Strip(None, false, ";" + rest) == ";" + Strip(None, false, rest) && (";" + rest)[1..] == rest
  {
  }

  lemma PlainStripped(p: string, rest: string)
    requires Plain(p) && NoSemicolon(p)
    ensures StripComments(p + ";" + rest) == p + ";" + StripComments(rest) && StripComments(p) == p
  {
    PlainIsPassed(false, p, 0, "");
    StripSeparator(rest);
    hide Strip, Piece, Plain, NoSemicolon;
    StripReadsPiece(None, false, p, 0, ";" + rest, ";" + Strip(None, false, rest));
    assert p + ";" + rest == p + (";" + rest) && p + ";" + Strip(None, false, rest) == p + (";" + Strip(None, false, rest));
    ClosedIsOpen(None, false, p, 0);
    NoCommentInPiece(None, false, p, 0);
    StripOfNoComment(None, false, p);
  }

  /** A plain declaration gets " !important" unless it is marked, and blank ones vanish, whatever
      follows behind the ';'. */
  lemma DeclarationsBecomeImportant(p: string, rest: string)
    requires Plain(p) && NoSemicolon(p)
    ensures Blank(p) ==> Importantify(p + ";" + rest) == Importantify(rest) && Importantify(p) == ""
    ensures !Blank(p) ==>
      var d := if Marked(Trim(p)) then Trim(p) else Trim(p) + " !important";
      && Importantify(p) == d
      && Importantify(p + ";" + rest) == if Importantify(rest) == "" then d else d + ";" + Importantify(rest)
  {
    hide StripComments, Declarations, Kept, Join, Marked, Blank, Trim, PlainChar;
    PlainStripped(p, rest);
    SemicolonsSeparate(p, StripComments(rest));
    var ds := Declarations(StripComments(rest));
    KeptIs(p, ds);
    KeptIs(p, []);
    assert [p] + [] == [p];
    KeptNotEmpty(ds);
    if !Blank(p) {
      var d := if Marked(Trim(p)) then Trim(p) else Trim(p) + " !important";
      JoinIs(d, Kept(ds));
      assert [d] + [] == [d];
    } else {
      JoinIs("", []);
    }
  }
}
