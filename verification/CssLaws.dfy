/** importantify is idempotent on every string: what it prints is read back, by both scanners, as
    exactly the declarations it printed. */
module CssLaws {
  import opened Wrappers
  import opened CssScanner

  // ---- The url token under prefixes and extensions -----------------------------------------

  lemma {:induction false} UrlBodyOpen(t: string)
    ensures !UrlClosed(t) ==> UrlBody(t) == |t|
  {
    if t == "" || t[0] == ')' {
    } else if t[0] == '\\' {
      if |t| > 1 { UrlBodyOpen(t[2..]); }
    } else {
      UrlBodyOpen(t[1..]);
    }
  }

  /** A closed url depends only on its own text. */
  lemma {:induction false} UrlBodyLocal(t: string, u: string)
    requires UrlClosed(t) && t[..UrlBody(t)] <= u
    ensures UrlClosed(u) && UrlBody(u) == UrlBody(t)
    decreases |t|
  {
    var m := UrlBody(t);
    assert u[0] == t[..m][0] == t[0];
    if t[0] == ')' {
    } else if t[0] == '\\' {
      assert t[2..][..m - 2] == t[..m][2..] <= u[2..];
      UrlBodyLocal(t[2..], u[2..]);
    } else {
      assert t[1..][..m - 1] == t[..m][1..] <= u[1..];
      UrlBodyLocal(t[1..], u[1..]);
    }
  }

  lemma {:induction false} UrlStaysOpen(t: string, x: string)
    requires !UrlClosed(t) && ')' !in x
    ensures !UrlClosed(t + x)
    decreases |t| + |x|
  {
    var u := t + x;
    if u == "" {
    } else if t == "" {
      assert u == x;
      if x[0] == '\\' {
        if |x| > 1 {
          assert x[2..] == "" + x[2..];
          UrlStaysOpen("", x[2..]);
        }
      } else {
        assert x[1..] == "" + x[1..];
        UrlStaysOpen("", x[1..]);
      }
    } else if t[0] == '\\' {
      if |t| > 1 {
        assert u[2..] == t[2..] + x;
        UrlStaysOpen(t[2..], x);
      } else if x != "" {
        assert u[2..] == "" + x[1..];
        UrlStaysOpen("", x[1..]);
      }
    } else {
      assert u[1..] == t[1..] + x;
      UrlStaysOpen(t[1..], x);
    }
  }

  lemma {:induction false} QuoteAheadExtends(t: string, x: string)
    requires QuoteAfterSpaces(t)
    ensures QuoteAfterSpaces(t + x)
    decreases |t|
  {
    if !IsQuote(t[0]) {
      assert (t + x)[1..] == t[1..] + x;
      QuoteAheadExtends(t[1..], x);
    }
  }

  /** No quote follows the spaces of `t`, nor of `x`, so none follows those of `t + x`. */
  lemma {:induction false} NoQuoteAheadExtends(t: string, x: string)
    requires !QuoteAfterSpaces(t) && (UrlClosed(t) || !QuoteAfterSpaces(x))
    ensures !QuoteAfterSpaces(t + x)
    decreases |t|
  {
    if t == "" {
      assert t + x == x;
    } else if IsSpace(t[0]) {
      assert (t + x)[1..] == t[1..] + x;
      NoQuoteAheadExtends(t[1..], x);
    }
  }

  lemma {:induction false} QuoteAheadBefore(t: string, k: nat)
    requires QuoteAfterSpaces(t) && k < |t| && t[k] == ';'
    ensures QuoteAfterSpaces(t[..k])
    decreases |t|
  {
    if k > 0 && !IsQuote(t[0]) {
      assert t[1..][..k - 1] == t[..k][1..];
      QuoteAheadBefore(t[1..], k - 1);
    }
  }

  lemma {:induction false} StripKeepsQuoteAhead(prev: bool, t: string)
    requires QuoteAfterSpaces(t)
    ensures QuoteAfterSpaces(Strip(None, prev, t))
    decreases |t|
  {
    if !IsQuote(t[0]) {
      assert Strip(None, prev, t) == [t[0]] + Strip(None, false, t[1..]);
      StripKeepsQuoteAhead(false, t[1..]);
    }
  }

  /** A url token is still that url token whatever follows it (nothing does if it is unclosed). */
  lemma UrlKept(prev: bool, s: string, t: string)
    requires UrlAt(prev, s) && (UrlClosed(s[4..]) || t == "")
    ensures var z := s[..UrlLen(s)] + t; UrlAt(prev, z) && UrlLen(z) == UrlLen(s) && !CommentAt(z) && !IsQuote(z[0])
    ensures var z := s[..UrlLen(s)] + t; UrlClosed(z[4..]) == UrlClosed(s[4..])
  {
    var b := s[4..];
    var z := s[..UrlLen(s)] + t;
    if UrlClosed(b) {
      var m := UrlBody(b);
      UrlBodyLocal(b, b[..m]);
      assert b[..m] + b[m..] == b;
      if QuoteAfterSpaces(b[..m]) {
        QuoteAheadExtends(b[..m], b[m..]);
      }
      NoQuoteAheadExtends(b[..m], t);
      assert z[4..] == b[..m] + t && z[..4] == s[..4];
      UrlBodyLocal(b, z[4..]);
    } else {
      UrlBodyOpen(b);
      assert z == s;
    }
  }

  // ---- stripComments -----------------------------------------------------------------------

  /** Scanning meets no comment. */
  ghost predicate NoComment(q: Option<char>, prev: bool, s: string)
    decreases |s|
  {
    if s == "" then true
    else if q.Some? then
      if s[0] == '\\' then NoComment(q, false, s[EscapeLen(s)..])
      else NoComment(if s[0] == q.value then None else q, false, s[1..])
    else if IsQuote(s[0]) then NoComment(Some(s[0]), false, s[1..])
    else if CommentAt(s) then false
    else if UrlAt(prev, s) then NoComment(None, false, s[UrlLen(s)..])
    else NoComment(None, IsIdentChar(s[0]), s[1..])
  }

  /** Stripping changes the first character only of a comment. */
  lemma StripHead(prev: bool, r: string)
    requires r != ""
    ensures var z := Strip(None, prev, r); z != "" && (z[0] == r[0] || (CommentAt(r) && z[0] == ' '))
  {
  }

  /** An ordinary character starts neither a comment nor a url in front of stripped text, if it
      did not in front of the original. */
  lemma OrdinaryStaysOrdinary(prev: bool, s: string)
    requires s != "" && !IsQuote(s[0]) && !CommentAt(s) && !UrlAt(prev, s)
    ensures var z := [s[0]] + Strip(None, IsIdentChar(s[0]), s[1..]); !CommentAt(z) && !UrlAt(prev, z)
  {
    var r := s[1..];
    var z := [s[0]] + Strip(None, IsIdentChar(s[0]), r);
    if r != "" {
      StripHead(IsIdentChar(s[0]), r);
    }
    if UrlHead(z) {
      assert z[1] == r[0];
      assert Strip(None, true, r) == [r[0]] + Strip(None, true, r[1..]);
      StripHead(true, r[1..]);
      assert z[2] == r[1];
      assert Strip(None, true, r[1..]) == [r[1]] + Strip(None, true, r[2..]);
      StripHead(true, r[2..]);
      assert z[3] == r[2];
      assert Strip(None, true, r[2..]) == [r[2]] + Strip(None, false, r[3..]);
      assert z[4..] == Strip(None, false, r[3..]) && s[4..] == r[3..];
      if !prev {
        StripKeepsQuoteAhead(false, s[4..]);
      }
    }
  }

  lemma {:induction false} StripLeavesNoComment(q: Option<char>, prev: bool, s: string)
    ensures NoComment(q, prev, Strip(q, prev, s))
    decreases |s|
  {
    var z := Strip(q, prev, s);
    if s == "" {
    } else if q.Some? {
      if s[0] == '\\' {
        var n := EscapeLen(s);
        StripLeavesNoComment(q, false, s[n..]);
        assert z[0] == '\\' && z[EscapeLen(z)..] == Strip(q, false, s[n..]);
      } else {
        var q' := if s[0] == q.value then None else q;
        StripLeavesNoComment(q', false, s[1..]);
        assert z[1..] == Strip(q', false, s[1..]);
      }
    } else if IsQuote(s[0]) {
      StripLeavesNoComment(Some(s[0]), false, s[1..]);
      assert z[1..] == Strip(Some(s[0]), false, s[1..]);
    } else if CommentAt(s) {
      StripLeavesNoComment(None, false, s[CommentLen(s)..]);
      assert z[0] == ' ' && z[1..] == Strip(None, false, s[CommentLen(s)..]);
    } else if UrlAt(prev, s) {
      var n := UrlLen(s);
      var t := Strip(None, false, s[n..]);
      StripLeavesNoComment(None, false, s[n..]);
      UrlBodyOpen(s[4..]);
      UrlKept(prev, s, t);
      assert z[n..] == t;
    } else {
      OrdinaryStaysOrdinary(prev, s);
      StripLeavesNoComment(None, IsIdentChar(s[0]), s[1..]);
      assert z[1..] == Strip(None, IsIdentChar(s[0]), s[1..]);
    }
  }

  lemma {:induction false} StripOfNoComment(q: Option<char>, prev: bool, s: string)
    requires NoComment(q, prev, s)
    ensures Strip(q, prev, s) == s
    decreases |s|
  {
    if s == "" {
    } else if q.Some? {
      if s[0] == '\\' {
        StripOfNoComment(q, false, s[EscapeLen(s)..]);
        assert s == s[..EscapeLen(s)] + s[EscapeLen(s)..];
      } else {
        assert s == [s[0]] + s[1..];
        StripOfNoComment(if s[0] == q.value then None else q, false, s[1..]);
      }
    } else if IsQuote(s[0]) {
      StripOfNoComment(Some(s[0]), false, s[1..]);
      assert s == [s[0]] + s[1..];
    } else if UrlAt(prev, s) {
      StripOfNoComment(None, false, s[UrlLen(s)..]);
      assert s == s[..UrlLen(s)] + s[UrlLen(s)..];
    } else {
      StripOfNoComment(None, IsIdentChar(s[0]), s[1..]);
      assert s == [s[0]] + s[1..];
    }
  }

  /** stripComments is idempotent. */
  lemma StripCommentsIdempotent(css: string)
    ensures StripComments(StripComments(css)) == StripComments(css)
  {
    StripLeavesNoComment(None, false, css);
    StripOfNoComment(None, false, StripComments(css));
  }

  // ---- Declarations ------------------------------------------------------------------------

  /** Scanning meets no comment and no ';' at depth 0; a `closed` text also ends outside strings,
      urls and parentheses, so that a ';' after it would separate. */
  ghost predicate Piece(q: Option<char>, prev: bool, s: string, depth: nat, closed: bool)
    decreases |s|
  {
    if s == "" then closed ==> q.None? && depth == 0
    else if q.Some? then
      if s[0] == '\\' then (if |s| == 1 then !closed else Piece(q, false, s[2..], depth, closed))
      else Piece(if s[0] == q.value then None else q, false, s[1..], depth, closed)
    else if IsQuote(s[0]) then Piece(Some(s[0]), false, s[1..], depth, closed)
    else if CommentAt(s) then false
    else if s[0] == '(' then Piece(None, false, s[1..], depth + 1, closed)
    else if s[0] == ')' then Piece(None, false, s[1..], if depth == 0 then 0 else depth - 1, closed)
    else if s[0] == ';' then depth > 0 && Piece(None, false, s[1..], depth, closed)
    else if UrlAt(prev, s) then
      (if UrlClosed(s[4..]) then Piece(None, false, s[UrlLen(s)..], depth, closed) else !closed)
    else Piece(None, IsIdentChar(s[0]), s[1..], depth, closed)
  }

  lemma {:induction false} ClosedIsOpen(q: Option<char>, prev: bool, s: string, depth: nat)
    requires Piece(q, prev, s, depth, true)
    ensures Piece(q, prev, s, depth, false)
    decreases |s|
  {
    if s == "" {
    } else if q.Some? {
      if s[0] == '\\' {
        ClosedIsOpen(q, false, s[2..], depth);
      } else {
        ClosedIsOpen(if s[0] == q.value then None else q, false, s[1..], depth);
      }
    } else if IsQuote(s[0]) {
      ClosedIsOpen(Some(s[0]), false, s[1..], depth);
    } else if s[0] == '(' {
      ClosedIsOpen(None, false, s[1..], depth + 1);
    } else if s[0] == ')' {
      ClosedIsOpen(None, false, s[1..], if depth == 0 then 0 else depth - 1);
    } else if s[0] != ';' && UrlAt(prev, s) {
      ClosedIsOpen(None, false, s[UrlLen(s)..], depth);
    } else {
      ClosedIsOpen(None, IsIdentChar(s[0]), s[1..], depth);
    }
  }

  /** A text that starts no url still starts none when something follows it that could not continue
      the url head and brings no quote. */
  lemma NoUrlExtends(prev: bool, s: string, x: string)
    requires s != "" && !UrlAt(prev, s) && x != "" && (x[0] == ';' || x[0] == ' ' || x[0] == '/')
    ensures !UrlAt(prev, s + x)
  {
    assert (s + x)[|s|] == x[0];
    if UrlHead(s + x) && |s| >= 4 && !prev {
      QuoteAheadExtends(s[4..], x);
      assert (s + x)[4..] == s[4..] + x;
    }
  }

  lemma UrlExtends(prev: bool, s: string, x: string)
    requires UrlAt(prev, s) && (UrlClosed(s[4..]) || (')' !in x && !QuoteAfterSpaces(x)))
    ensures UrlAt(prev, s + x) && UrlClosed((s + x)[4..]) == UrlClosed(s[4..])
    ensures UrlClosed(s[4..]) ==> UrlLen(s + x) == UrlLen(s)
  {
    var b := s[4..];
    assert (s + x)[..4] == s[..4] && (s + x)[4..] == b + x;
    NoQuoteAheadExtends(b, x);
    if UrlClosed(b) {
      UrlBodyLocal(b, b + x);
    } else {
      UrlStaysOpen(b, x);
    }
  }

  lemma SplitConcat(s: string, n: nat, x: string, y: string)
    requires n <= |s|
    ensures (s + x)[n..] == s[n..] + x && (s + x)[..n] == s[..n]
    ensures s[..n] + (s[n..] + y) == s + y
  {
  }

  /** The stripper copies a closed text and its separator, and starts afresh behind it. */
  lemma {:induction false} StripReadsPiece(q: Option<char>, prev: bool, s: string, depth: nat, x: string, y: string)
    requires Piece(q, prev, s, depth, true) && x != "" && x[0] == ';'
    requires y == [';'] + Strip(None, false, x[1..])
    ensures Strip(q, prev, s + x) == s + y
    decreases |s|
  {
    var u := s + x;
    if s == "" {
      assert u == x && s + y == y;
    } else if q.Some? {
      StripReadsQuotedPiece(q.value, prev, s, depth, x, y);
    } else if IsQuote(s[0]) {
      SplitConcat(s, 1, x, y);
      StripReadsPiece(Some(s[0]), false, s[1..], depth, x, y);
    } else if UrlAt(prev, s) {
      StripReadsUrlPiece(prev, s, depth, x, y);
    } else {
      StripReadsPlainPiece(prev, s, depth, x, y);
    }
  }

  lemma PlainStrip(prev: bool, s: string)
    requires s != "" && !IsQuote(s[0]) && !CommentAt(s) && !UrlAt(prev, s)
    ensures Strip(None, prev, s) == [s[0]] + Strip(None, IsIdentChar(s[0]), s[1..])
  {
  }

  lemma PlainPiece(prev: bool, s: string, depth: nat, closed: bool)
    requires s != "" && !IsQuote(s[0]) && !UrlAt(prev, s)
    ensures Piece(None, prev, s, depth, closed) <==>
      && !CommentAt(s) && (s[0] == ';' ==> depth > 0)
      && Piece(None, IsIdentChar(s[0]), s[1..], Deeper(s[0], depth), closed)
  {
  }

  lemma {:induction false} StripReadsPlainPiece(prev: bool, s: string, depth: nat, x: string, y: string)
    requires s != "" && !IsQuote(s[0]) && !UrlAt(prev, s) && Piece(None, prev, s, depth, true) && x != "" && x[0] == ';'
    requires y == [';'] + Strip(None, false, x[1..])
    ensures Strip(None, prev, s + x) == s + y
    decreases |s|, 0
  {
    hide UrlAt, Strip, Piece;
    NoUrlExtends(prev, s, x);
    PlainPiece(prev, s, depth, true);
    assert !CommentAt(s + x) && (s + x)[0] == s[0];
    PlainStrip(prev, s + x);
    SplitConcat(s, 1, x, y);
    StripReadsPiece(None, IsIdentChar(s[0]), s[1..], Deeper(s[0], depth), x, y);
    assert [s[0]] == s[..1];
  }

  lemma QuotedStrip(q: char, prev: bool, s: string)
    requires s != ""
    ensures var n := if s[0] == '\\' then EscapeLen(s) else 1;
      Strip(Some(q), prev, s) == s[..n] + Strip(if s[0] == q && s[0] != '\\' then None else Some(q), false, s[n..])
  {
    assert s[..1] == [s[0]];
  }

  lemma {:induction false} StripReadsQuotedPiece(q: char, prev: bool, s: string, depth: nat, x: string, y: string)
    requires s != "" && Piece(Some(q), prev, s, depth, true) && x != "" && x[0] == ';'
    requires y == [';'] + Strip(None, false, x[1..])
    ensures Strip(Some(q), prev, s + x) == s + y
    decreases |s|, 0
  {
    assert s[0] == '\\' ==> |s| > 1;
    hide Piece, Strip;
    var n := if s[0] == '\\' then 2 else 1;
    assert (s + x)[0] == s[0];
    QuotedPiece(q, prev, s, depth, true);
    QuotedStrip(q, prev, s + x);
    SplitConcat(s, n, x, y);
    StripReadsPiece(if s[0] == q && n == 1 then None else Some(q), false, s[n..], depth, x, y);
  }

  lemma {:induction false} StripReadsUrlPiece(prev: bool, s: string, depth: nat, x: string, y: string)
    requires UrlAt(prev, s) && Piece(None, prev, s, depth, true) && x != "" && x[0] == ';'
    requires y == [';'] + Strip(None, false, x[1..])
    ensures Strip(None, prev, s + x) == s + y
    decreases |s|, 0
  {
    UrlExtends(prev, s, x);
    SplitConcat(s, UrlLen(s), x, y);
    StripReadsPiece(None, false, s[UrlLen(s)..], depth, x, y);
  }

  function Deeper(c: char, depth: nat): nat {
    if c == '(' then depth + 1 else if c == ')' && depth > 0 then depth - 1 else depth
  }

  /** The splitter cuts exactly behind a closed text. */
  lemma {:induction false} CutReadsPiece(q: Option<char>, prev: bool, s: string, depth: nat, x: string)
    requires Piece(q, prev, s, depth, true) && x != "" && x[0] == ';'
    ensures Cut(q, prev, s + x, depth) == Some(|s|)
    decreases |s|
  {
    if s == "" {
      assert s + x == x;
    } else if q.Some? {
      var n := if s[0] == '\\' then 2 else 1;
      SplitConcat(s, n, x, "");
      CutReadsPiece(if s[0] == q.value && n == 1 then None else q, false, s[n..], depth, x);
    } else if IsQuote(s[0]) {
      SplitConcat(s, 1, x, "");
      CutReadsPiece(Some(s[0]), false, s[1..], depth, x);
    } else if UrlAt(prev, s) {
      CutReadsUrlPiece(prev, s, depth, x);
    } else {
      NoUrlExtends(prev, s, x);
      SplitConcat(s, 1, x, "");
      CutReadsPiece(None, IsIdentChar(s[0]), s[1..], Deeper(s[0], depth), x);
    }
  }

  lemma {:induction false} CutReadsUrlPiece(prev: bool, s: string, depth: nat, x: string)
    requires UrlAt(prev, s) && Piece(None, prev, s, depth, true) && x != "" && x[0] == ';'
    ensures Cut(None, prev, s + x, depth) == Some(|s|)
    decreases |s|, 0
  {
    UrlExtends(prev, s, x);
    SplitConcat(s, UrlLen(s), x, "");
    CutReadsPiece(None, false, s[UrlLen(s)..], depth, x);
  }

  /** The splitter finds no cut in a text that ends there. */
  lemma {:induction false} NoCutInPiece(q: Option<char>, prev: bool, s: string, depth: nat)
    requires Piece(q, prev, s, depth, false)
    ensures Cut(q, prev, s, depth) == None
    decreases |s|
  {
    if s == "" {
    } else if q.Some? {
      if s[0] == '\\' {
        NoCutInPiece(q, false, s[EscapeLen(s)..], depth);
      } else {
        NoCutInPiece(if s[0] == q.value then None else q, false, s[1..], depth);
      }
    } else if IsQuote(s[0]) {
      NoCutInPiece(Some(s[0]), false, s[1..], depth);
    } else if UrlAt(prev, s) {
      UrlBodyOpen(s[4..]);
      if UrlClosed(s[4..]) {
        NoCutInPiece(None, false, s[UrlLen(s)..], depth);
      }
    } else {
      NoCutInPiece(None, IsIdentChar(s[0]), s[1..], Deeper(s[0], depth));
    }
  }

  lemma {:induction false} NoCommentInPiece(q: Option<char>, prev: bool, s: string, depth: nat)
    requires Piece(q, prev, s, depth, false)
    ensures NoComment(q, prev, s)
    decreases |s|
  {
    if s == "" {
    } else if q.Some? {
      if s[0] == '\\' {
        NoCommentInPiece(q, false, s[EscapeLen(s)..], depth);
      } else {
        NoCommentInPiece(if s[0] == q.value then None else q, false, s[1..], depth);
      }
    } else if IsQuote(s[0]) {
      NoCommentInPiece(Some(s[0]), false, s[1..], depth);
    } else if UrlAt(prev, s) {
      UrlBodyOpen(s[4..]);
      if UrlClosed(s[4..]) {
        NoCommentInPiece(None, false, s[UrlLen(s)..], depth);
      }
    } else {
      NoCommentInPiece(None, IsIdentChar(s[0]), s[1..], Deeper(s[0], depth));
    }
  }

  /** Both scanners read a text that ends there as it is. */
  lemma ReadsLastPiece(s: string)
    requires Piece(None, false, s, 0, false)
    ensures StripComments(s) == s && Declarations(s) == [s]
  {
    NoCutInPiece(None, false, s, 0);
    NoCommentInPiece(None, false, s, 0);
    StripOfNoComment(None, false, s);
  }

  // ---- Where pieces come from --------------------------------------------------------------

  /** A prefix that ends before a ';' starts a url exactly if the whole text does. */
  lemma UrlBefore(prev: bool, s: string, k: nat)
    requires k < |s| && s[k] == ';'
    ensures UrlAt(prev, s[..k]) <==> UrlAt(prev, s)
  {
    if UrlHead(s) {
      var b := s[4..];
      assert s[..k][4..] == b[..k - 4];
      assert b[..k - 4] + b[k - 4..] == b;
      if QuoteAfterSpaces(b) {
        QuoteAheadBefore(b, k - 4);
      } else if QuoteAfterSpaces(b[..k - 4]) {
        QuoteAheadExtends(b[..k - 4], b[k - 4..]);
      }
    }
  }

  lemma UrlEndsBefore(s: string, k: nat)
    requires UrlHead(s) && UrlLen(s) <= k < |s|
    ensures UrlHead(s[..k]) && UrlLen(s[..k]) == UrlLen(s) && UrlClosed(s[..k][4..])
  {
    var b := s[4..];
    UrlBodyOpen(b);
    assert s[..k][..4] == s[..4] && s[..k][4..] == b[..k - 4];
    UrlBodyLocal(b, b[..k - 4]);
  }

  lemma SplitBefore(s: string, n: nat, k: nat)
    requires n <= k < |s|
    ensures s[..k][n..] == s[n..][..k - n] && s[n..][k - n] == s[k] && s[n..][k - n + 1..] == s[k + 1..]
    ensures n > 0 ==> s[..k][0] == s[0]
  {
  }

  /** Cutting a comment-free text yields a closed piece and a comment-free rest. */
  lemma {:induction false} CutYieldsPiece(q: Option<char>, prev: bool, s: string, depth: nat, k: nat)
    requires NoComment(q, prev, s) && Cut(q, prev, s, depth) == Some(k)
    requires k < |s| && s[k] == ';'
    ensures Piece(q, prev, s[..k], depth, true) && NoComment(None, false, s[k + 1..])
    decreases |s|
  {
    if q.Some? {
      CutInStringYieldsPiece(q.value, prev, s, depth, k);
    } else if IsQuote(s[0]) {
      SplitBefore(s, 1, k);
      CutYieldsPiece(Some(s[0]), false, s[1..], depth, k - 1);
    } else if s[0] != ';' || depth > 0 {
      UrlBefore(prev, s, k);
      if UrlAt(prev, s) {
        CutBehindUrlYieldsPiece(prev, s, depth, k);
      } else {
        SplitBefore(s, 1, k);
        CutYieldsPiece(None, IsIdentChar(s[0]), s[1..], Deeper(s[0], depth), k - 1);
      }
    }
  }

  /** One step of every scan inside a string. */
  lemma QuotedCut(q: char, prev: bool, s: string, depth: nat)
    requires s != ""
    ensures var n := if s[0] == '\\' then EscapeLen(s) else 1;
      var after := if s[0] == q && s[0] != '\\' then None else Some(q);
      && Cut(Some(q), prev, s, depth) == Shift(Cut(after, false, s[n..], depth), n)
      && (NoComment(Some(q), prev, s) ==> NoComment(after, false, s[n..]))
  {
  }

  lemma QuotedPiece(q: char, prev: bool, s: string, depth: nat, closed: bool)
    requires s != "" && (s[0] == '\\' ==> |s| > 1)
    ensures Piece(Some(q), prev, s, depth, closed) <==>
      Piece(if s[0] == q && s[0] != '\\' then None else Some(q), false, s[if s[0] == '\\' then 2 else 1..], depth, closed)
  {
  }

  lemma {:induction false} CutInStringYieldsPiece(q: char, prev: bool, s: string, depth: nat, k: nat)
    requires NoComment(Some(q), prev, s) && Cut(Some(q), prev, s, depth) == Some(k)
    requires k < |s| && s[k] == ';'
    ensures Piece(Some(q), prev, s[..k], depth, true) && NoComment(None, false, s[k + 1..])
    decreases |s|, 0
  {
    hide Cut, NoComment, Piece;
    var n := if s[0] == '\\' then EscapeLen(s) else 1;
    QuotedCut(q, prev, s, depth);
    SplitBefore(s, n, k);
    CutIsSemicolon(if s[0] == q && s[0] != '\\' then None else Some(q), false, s[n..], depth);
    CutYieldsPiece(if s[0] == q && s[0] != '\\' then None else Some(q), false, s[n..], depth, k - n);
    QuotedPiece(q, prev, s[..k], depth, true);
  }

  /** One step of every scan over a url token. */
  lemma UrlCut(prev: bool, s: string, depth: nat)
    requires UrlAt(prev, s)
    ensures Cut(None, prev, s, depth) == Shift(Cut(None, false, s[UrlLen(s)..], depth), UrlLen(s))
    ensures NoComment(None, prev, s) ==> NoComment(None, false, s[UrlLen(s)..])
  {
    hide UrlBody, QuoteAfterSpaces;
  }

  lemma UrlPiece(prev: bool, s: string, depth: nat, closed: bool)
    requires UrlAt(prev, s) && UrlClosed(s[4..])
    ensures Piece(None, prev, s, depth, closed) <==> Piece(None, false, s[UrlLen(s)..], depth, closed)
  {
    hide UrlBody, QuoteAfterSpaces, UrlClosed;
  }

  lemma {:induction false} CutBehindUrlYieldsPiece(prev: bool, s: string, depth: nat, k: nat)
    requires k < |s| && s[k] == ';' && UrlAt(prev, s) && UrlAt(prev, s[..k])
    requires NoComment(None, prev, s) && Cut(None, prev, s, depth) == Some(k)
    ensures Piece(None, prev, s[..k], depth, true) && NoComment(None, false, s[k + 1..])
    decreases |s|, 0
  {
    UrlCut(prev, s, depth);
    CutIsSemicolon(None, false, s[UrlLen(s)..], depth);
    hide Cut, NoComment, Piece, UrlLen, UrlAt, UrlClosed;
    UrlEndsBefore(s, k);
    SplitBefore(s, UrlLen(s), k);
    CutYieldsPiece(None, false, s[UrlLen(s)..], depth, k - UrlLen(s));
    UrlPiece(prev, s[..k], depth, true);
  }

  lemma {:induction false} UncutIsLastPiece(q: Option<char>, prev: bool, s: string, depth: nat)
    requires NoComment(q, prev, s) && Cut(q, prev, s, depth) == None
    ensures Piece(q, prev, s, depth, false)
    decreases |s|
  {
    if s == "" {
    } else if q.Some? {
      if s[0] == '\\' {
        UncutIsLastPiece(q, false, s[EscapeLen(s)..], depth);
      } else {
        UncutIsLastPiece(if s[0] == q.value then None else q, false, s[1..], depth);
      }
    } else if IsQuote(s[0]) {
      UncutIsLastPiece(Some(s[0]), false, s[1..], depth);
    } else if UrlAt(prev, s) {
      UncutIsLastPiece(None, false, s[UrlLen(s)..], depth);
    } else {
      UncutIsLastPiece(None, IsIdentChar(s[0]), s[1..], Deeper(s[0], depth));
    }
  }

  /** All pieces but the last are closed. */
  ghost predicate Pieces(ds: seq<string>) {
    if ds == [] then true
    else if |ds| == 1 then Piece(None, false, ds[0], 0, false)
    else Piece(None, false, ds[0], 0, true) && Pieces(ds[1..])
  }

  lemma {:induction false} DeclarationsArePieces(s: string)
    requires NoComment(None, false, s)
    ensures Declarations(s) != [] && Pieces(Declarations(s))
    decreases |s|
  {
    var cut := Cut(None, false, s, 0);
    if cut.None? {
      UncutIsLastPiece(None, false, s, 0);
    } else {
      CutIsSemicolon(None, false, s, 0);
      CutYieldsPiece(None, false, s, 0, cut.value);
      var rest := Declarations(s[cut.value + 1..]);
      DeclarationsArePieces(s[cut.value + 1..]);
      assert ([s[..cut.value]] + rest)[1..] == rest;
    }
  }

  // ---- Trimming and finishing keep pieces --------------------------------------------------

  lemma {:induction false} TrimStartKeepsPiece(prev: bool, s: string, depth: nat, closed: bool)
    requires Piece(None, prev, s, depth, closed)
    ensures Piece(None, if TrimStart(s) == s then prev else false, TrimStart(s), depth, closed)
    decreases |s|
  {
    if s != "" && IsSpace(s[0]) {
      assert Piece(None, false, s[1..], depth, closed);
      TrimStartKeepsPiece(false, s[1..], depth, closed);
      TrimStartShrinks(s);
    }
  }

  lemma {:induction false} TrimStartShrinks(s: string)
    ensures |TrimStart(s)| <= |s|
    ensures s != "" && IsSpace(s[0]) ==> |TrimStart(s)| < |s|
    ensures TrimStart(s) == "" || !IsSpace(TrimStart(s)[0])
    decreases |s|
  {
    if s != "" && IsSpace(s[0]) {
      TrimStartShrinks(s[1..]);
    }
  }

  lemma UrlWithoutSpace(prev: bool, s: string, w: char)
    requires s != "" && IsSpace(w)
    ensures UrlAt(prev, s + [w]) <==> UrlAt(prev, s)
    ensures UrlAt(prev, s) ==> UrlClosed((s + [w])[4..]) == UrlClosed(s[4..])
    ensures UrlAt(prev, s) && UrlClosed(s[4..]) ==> UrlLen(s + [w]) == UrlLen(s)
  {
    assert (s + [w])[|s|] == w;
    if UrlAt(prev, s) {
      UrlExtends(prev, s, [w]);
    } else if UrlHead(s) {
      assert (s + [w])[4..] == s[4..] + [w];
      if QuoteAfterSpaces(s[4..]) {
        QuoteAheadExtends(s[4..], [w]);
      }
    }
  }

  /** One trailing space does not matter. */
  lemma {:induction false} DropSpaceKeepsPiece(q: Option<char>, prev: bool, s: string, w: char, depth: nat, closed: bool)
    requires IsSpace(w) && Piece(q, prev, s + [w], depth, closed) && (q.Some? ==> IsQuote(q.value))
    ensures Piece(q, prev, s, depth, closed)
    decreases |s|
  {
    var u := s + [w];
    if s == "" {
      assert u == [w] && u[1..] == "";
    } else if q.Some? {
      DropSpaceKeepsQuoted(q, prev, s, w, depth, closed);
    } else if IsQuote(s[0]) {
      assert u[1..] == s[1..] + [w];
      DropSpaceKeepsPiece(Some(s[0]), false, s[1..], w, depth, closed);
    } else if UrlAt(prev, s) {
      UrlWithoutSpace(prev, s, w);
      if UrlClosed(s[4..]) {
        assert u[UrlLen(s)..] == s[UrlLen(s)..] + [w];
        DropSpaceKeepsPiece(None, false, s[UrlLen(s)..], w, depth, closed);
      }
    } else {
      DropSpaceKeepsPlain(prev, s, w, depth, closed);
    }
  }

  lemma {:induction false} DropSpaceKeepsPlain(prev: bool, s: string, w: char, depth: nat, closed: bool)
    requires s != "" && !IsQuote(s[0]) && !UrlAt(prev, s) && IsSpace(w) && Piece(None, prev, s + [w], depth, closed)
    ensures Piece(None, prev, s, depth, closed)
    decreases |s|, 0
  {
    UrlWithoutSpace(prev, s, w);
    hide UrlAt, Piece, IsSpace;
    var u := s + [w];
    assert u[0] == s[0] && u[1..] == s[1..] + [w] && (CommentAt(s) ==> CommentAt(u));
    PlainPiece(prev, u, depth, closed);
    PlainPiece(prev, s, depth, closed);
    DropSpaceKeepsPiece(None, IsIdentChar(s[0]), s[1..], w, Deeper(s[0], depth), closed);
  }

  lemma {:induction false} DropSpaceKeepsQuoted(q: Option<char>, prev: bool, s: string, w: char, depth: nat, closed: bool)
    requires q.Some? && IsQuote(q.value) && s != "" && IsSpace(w) && Piece(q, prev, s + [w], depth, closed)
    ensures Piece(q, prev, s, depth, closed)
    decreases |s|, 0
  {
    var u := s + [w];
    if s[0] == '\\' {
      if |s| > 1 {
        assert u[2..] == s[2..] + [w];
        DropSpaceKeepsPiece(q, false, s[2..], w, depth, closed);
      } else {
        assert u[2..] == "";
      }
    } else {
      assert u[1..] == s[1..] + [w];
      DropSpaceKeepsPiece(if s[0] == q.value then None else q, false, s[1..], w, depth, closed);
    }
  }

  lemma {:induction false} TrimEndKeepsPiece(s: string, closed: bool)
    requires Piece(None, false, s, 0, closed)
    ensures Piece(None, false, TrimEnd(s), 0, closed)
    decreases |s|
  {
    if s != "" && IsSpace(s[|s| - 1]) {
      var t := s[..|s| - 1];
      assert s == t + [s[|s| - 1]];
      DropSpaceKeepsPiece(None, false, t, s[|s| - 1], 0, closed);
      TrimEndKeepsPiece(t, closed);
    }
  }

  /** Characters no scanner reacts to, in any state. */
  predicate Ordinary(c: char) {
    !IsQuote(c) && c != '\\' && c != '(' && c != ')' && c != ';' && c != '/' && c != 'u' && c != 'U'
  }

  lemma {:induction false} OrdinaryKeepsPiece(q: Option<char>, prev: bool, x: string, depth: nat, closed: bool)
    requires (forall c :: c in x ==> Ordinary(c)) && (q.Some? ==> IsQuote(q.value))
    requires closed ==> q.None? && depth == 0
    ensures Piece(q, prev, x, depth, closed)
    decreases |x|
  {
    if x != "" {
      assert x[0] in x;
      OrdinaryKeepsPiece(q, if q.Some? then false else IsIdentChar(x[0]), x[1..], depth, closed);
    }
  }

  /** Appending " !important" keeps a piece, even behind an open string, url, parenthesis or escape. */
  lemma {:induction false} AppendKeepsPiece(q: Option<char>, prev: bool, s: string, depth: nat, closed: bool)
    requires Piece(q, prev, s, depth, closed) && (q.Some? ==> IsQuote(q.value))
    ensures Piece(q, prev, s + IMPORTANT, depth, closed)
    decreases |s|
  {
    var u := s + IMPORTANT;
    if s == "" {
      assert u == IMPORTANT;
      OrdinaryKeepsPiece(q, prev, IMPORTANT, depth, closed);
    } else if q.Some? {
      if s[0] == '\\' {
        AppendKeepsEscape(q, prev, s, depth, closed);
      } else {
        AppendInString(q.value, prev, s, depth, closed);
      }
    } else if IsQuote(s[0]) {
      assert u[1..] == s[1..] + IMPORTANT;
      AppendKeepsPiece(Some(s[0]), false, s[1..], depth, closed);
    } else {
      AppendKeepsUnquotedPiece(prev, s, depth, closed);
    }
  }

  lemma {:induction false} AppendInString(q: char, prev: bool, s: string, depth: nat, closed: bool)
    requires IsQuote(q) && s != "" && s[0] != '\\' && Piece(Some(q), prev, s, depth, closed)
    ensures Piece(Some(q), prev, s + IMPORTANT, depth, closed)
    decreases |s|, 1
  {
    hide Piece;
    assert (s + IMPORTANT)[0] == s[0] && (s + IMPORTANT)[1..] == s[1..] + IMPORTANT;
    QuotedPiece(q, prev, s, depth, closed);
    QuotedPiece(q, prev, s + IMPORTANT, depth, closed);
    AppendKeepsPiece(if s[0] == q then None else Some(q), false, s[1..], depth, closed);
  }

  lemma {:induction false} AppendKeepsEscape(q: Option<char>, prev: bool, s: string, depth: nat, closed: bool)
    requires q.Some? && IsQuote(q.value) && s != "" && s[0] == '\\' && Piece(q, prev, s, depth, closed)
    ensures Piece(q, prev, s + IMPORTANT, depth, closed)
    decreases |s|, 1
  {
    var u := s + IMPORTANT;
    if |s| > 1 {
      assert u[2..] == s[2..] + IMPORTANT;
      AppendKeepsPiece(q, false, s[2..], depth, closed);
    } else {
      assert u[2..] == IMPORTANT[1..] == "!important";
      OrdinaryKeepsPiece(q, false, "!important", depth, closed);
    }
  }

  lemma {:induction false} AppendKeepsUnquotedPiece(prev: bool, s: string, depth: nat, closed: bool)
    requires s != "" && !IsQuote(s[0]) && Piece(None, prev, s, depth, closed)
    ensures Piece(None, prev, s + IMPORTANT, depth, closed)
    decreases |s|, 1
  {
    var u := s + IMPORTANT;
    assert u[|s|] == ' ';
    if UrlAt(prev, s) {
      AppendKeepsUrl(prev, s, depth, closed);
    } else {
      NoUrlExtends(prev, s, IMPORTANT);
      assert u[1..] == s[1..] + IMPORTANT;
      AppendKeepsPiece(None, IsIdentChar(s[0]), s[1..], Deeper(s[0], depth), closed);
    }
  }

  lemma {:induction false} AppendKeepsUrl(prev: bool, s: string, depth: nat, closed: bool)
    requires UrlAt(prev, s) && Piece(None, prev, s, depth, closed)
    ensures Piece(None, prev, s + IMPORTANT, depth, closed)
    decreases |s|, 0
  {
    assert !QuoteAfterSpaces(IMPORTANT[1..]);
    UrlExtends(prev, s, IMPORTANT);
    if UrlClosed(s[4..]) {
      assert (s + IMPORTANT)[UrlLen(s)..] == s[UrlLen(s)..] + IMPORTANT;
      AppendKeepsPiece(None, false, s[UrlLen(s)..], depth, closed);
    }
  }

  // ---- Idempotence -------------------------------------------------------------------------

  lemma {:induction false} TrimEndDone(s: string)
    ensures TrimEnd(s) == "" || !IsSpace(TrimEnd(s)[|TrimEnd(s)| - 1])
    decreases |s|
  {
    if s != "" && IsSpace(s[|s| - 1]) {
      TrimEndDone(s[..|s| - 1]);
    }
  }

  /** Trimmed, not blank, and already important. */
  ghost predicate Final(d: string) { d != "" && Trim(d) == d && EndsImportant(d) }

  lemma AppendedIsImportant(t: string)
    ensures EndsImportant(t + IMPORTANT)
  {
  }

  lemma FinishIsFinal(d: string)
    requires Trim(d) != ""
    ensures Final(Finish(Trim(d)))
  {
    var t := Trim(d);
    TrimStartShrinks(d);
    TrimEndDone(TrimStart(d));
    assert t[0] == TrimStart(d)[0];
    var f := Finish(t);
    assert f[0] == t[0];
    hide EndsImportant, TrimStart;
    if !EndsImportant(t) {
      AppendedIsImportant(t);
      assert f[|f| - 1] == 't';
    }
    TightIsTrimmed(f);
  }

  lemma FinishKeepsPiece(d: string, closed: bool)
    requires Piece(None, false, d, 0, closed)
    ensures Piece(None, false, Finish(Trim(d)), 0, closed)
  {
    TrimStartKeepsPiece(false, d, 0, closed);
    TrimEndKeepsPiece(TrimStart(d), closed);
    AppendKeepsPiece(None, false, Trim(d), 0, closed);
  }

  ghost predicate AllFinal(ds: seq<string>) { forall i :: 0 <= i < |ds| ==> Final(ds[i]) }

  lemma {:induction false} KeptAreFinalPieces(ds: seq<string>)
    requires Pieces(ds)
    ensures Pieces(Kept(ds)) && AllFinal(Kept(ds))
    decreases |ds|
  {
    if ds != [] {
      var rest := Kept(ds[1..]);
      KeptAreFinalPieces(ds[1..]);
      if Trim(ds[0]) != "" {
        FinishIsFinal(ds[0]);
        FinishKeepsPiece(ds[0], |ds| > 1);
        var f := Finish(Trim(ds[0]));
        assert Kept(ds) == [f] + rest && ([f] + rest)[1..] == rest;
        if |ds| > 1 {
          ClosedIsOpen(None, false, f, 0);
        }
      } else {
        assert Kept(ds) == rest;
      }
    }
  }

  lemma {:induction false} KeptOfFinal(ds: seq<string>)
    requires AllFinal(ds)
    ensures Kept(ds) == ds
    decreases |ds|
  {
    if ds != [] {
      assert Final(ds[0]);
      KeptOfFinal(ds[1..]);
    }
  }

  lemma DeclarationsBehindPiece(d: string, t: string)
    requires Piece(None, false, d, 0, true)
    ensures Declarations(d + ";" + t) == [d] + Declarations(t)
  {
    var u := d + ";" + t;
    assert u == d + (";" + t) && u[..|d|] == d && u[|d| + 1..] == t;
    CutReadsPiece(None, false, d, 0, ";" + t);
  }

  lemma StripBehindPiece(d: string, t: string)
    requires Piece(None, false, d, 0, true) && StripComments(t) == t
    ensures StripComments(d + ";" + t) == d + ";" + t
  {
    var x := ";" + t;
    assert d + ";" + t == d + x && x[1..] == t;
    StripReadsPiece(None, false, d, 0, x, x);
  }

  /** Round trip: joined pieces are read back by both scanners as those pieces. */
  lemma {:induction false} JoinReadsBack(ds: seq<string>)
    requires ds != [] && Pieces(ds)
    ensures StripComments(Join(ds)) == Join(ds) && Declarations(Join(ds)) == ds
    decreases |ds|
  {
    if |ds| == 1 {
      ReadsLastPiece(ds[0]);
    } else {
      JoinReadsBack(ds[1..]);
      StripBehindPiece(ds[0], Join(ds[1..]));
      DeclarationsBehindPiece(ds[0], Join(ds[1..]));
    }
  }

  /** What importantify prints reads back as its finished declarations. */
  lemma ImportantifyReadsBack(css: string)
    ensures var kept := Kept(Declarations(StripComments(css)));
      && AllFinal(kept)
      && StripComments(Importantify(css)) == Importantify(css)
      && (kept != [] ==> Declarations(Importantify(css)) == kept)
  {
    var z := StripComments(css);
    StripLeavesNoComment(None, false, css);
    DeclarationsArePieces(z);
    KeptAreFinalPieces(Declarations(z));
    if Kept(Declarations(z)) != [] {
      JoinReadsBack(Kept(Declarations(z)));
    }
  }

  /** importantify is idempotent on every string. */
  lemma ImportantifyIdempotent(css: string)
    ensures Importantify(Importantify(css)) == Importantify(css)
  {
    var kept := Kept(Declarations(StripComments(css)));
    ImportantifyReadsBack(css);
    KeptOfFinal(kept);
    if kept == [] {
      assert Declarations("") == [""] && Kept([""]) == [];
    }
  }
}
