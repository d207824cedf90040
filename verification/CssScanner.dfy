/** The two CSS scanners of the template runtime (support.js, src/pseudo.ts): the comment stripper
    and the declaration splitter, and the unquoted-url scan they share. */
module CssScanner {
  import opened Wrappers

  // ---- Characters --------------------------------------------------------------------------

  /** JavaScript white space and line terminators: what trim() and \s both accept. */
  predicate IsSpace(c: char) {
    || '\t' <= c <= '\r' || c == ' ' || c == '\U{A0}' || c == '\U{1680}' || '\U{2000}' <= c <= '\U{200A}'
    || c == '\U{2028}' || c == '\U{2029}' || c == '\U{202F}' || c == '\U{205F}' || c == '\U{3000}' || c == '\U{FEFF}'
  }

  predicate IsQuote(c: char) { c == '\'' || c == '"' }

  predicate IsIdentChar(c: char) {
    'a' <= c <= 'z' || 'A' <= c <= 'Z' || '0' <= c <= '9' || c == '_' || c == '-'
  }

  function Lower(s: string): (r: string)
    ensures |r| == |s|
  {
    seq(|s|, i requires 0 <= i < |s| => if 'A' <= s[i] <= 'Z' then s[i] - 'A' + 'a' else s[i])
  }

  // ---- The unquoted url token --------------------------------------------------------------

  /** White space, then a quote: the url is a function with a quoted argument. */
  predicate QuoteAfterSpaces(s: string) {
    s != "" && (IsQuote(s[0]) || (IsSpace(s[0]) && QuoteAfterSpaces(s[1..])))
  }

  /** "url(" in any letter case. */
  predicate UrlHead(s: string) {
    && |s| >= 4 && (s[0] == 'u' || s[0] == 'U') && (s[1] == 'r' || s[1] == 'R') && (s[2] == 'l' || s[2] == 'L')
    && s[3] == '('
  }

  /** An unquoted url token starts here; `prev` says that an identifier character precedes. */
  predicate UrlAt(prev: bool, s: string) { !prev && UrlHead(s) && !QuoteAfterSpaces(s[4..]) }

  /** How much belongs to the url after its opening parenthesis: up to and including the first
      unescaped ')', or everything. */
  function UrlBody(s: string): (n: nat)
    ensures n <= |s|
  {
    if s == "" then 0
    else if s[0] == ')' then 1
    else if s[0] == '\\' then (if |s| == 1 then 1 else 2 + UrlBody(s[2..]))
    else 1 + UrlBody(s[1..])
  }

  predicate UrlClosed(s: string) {
    if s == "" then false
    else if s[0] == ')' then true
    else if s[0] == '\\' then |s| > 1 && UrlClosed(s[2..])
    else UrlClosed(s[1..])
  }

  function UrlLen(s: string): (n: nat)
    requires UrlHead(s)
    ensures 4 <= n <= |s|
  {
    4 + UrlBody(s[4..])
  }

  // ---- Comments ----------------------------------------------------------------------------

  predicate CommentAt(s: string) { |s| >= 2 && s[0] == '/' && s[1] == '*' }

  /** Length of a comment's text after its opening, through the first closing or to the end. */
  function CommentBody(s: string): (n: nat)
    ensures n <= |s|
  {
    if |s| < 2 then |s|
    else if s[0] == '*' && s[1] == '/' then 2
    else 1 + CommentBody(s[1..])
  }

  function CommentLen(s: string): (n: nat)
    requires CommentAt(s)
    ensures 2 <= n <= |s|
  {
    2 + CommentBody(s[2..])
  }

  /** An escape inside a string covers the next character, if there is one. */
  function EscapeLen(s: string): nat { if |s| < 2 then |s| else 2 }

  /** Each comment outside strings and urls becomes one space. `q` is the open quote. */
  function Strip(q: Option<char>, prev: bool, s: string): string
    decreases |s|
  {
    if s == "" then ""
    else if q.Some? then
      if s[0] == '\\' then s[..EscapeLen(s)] + Strip(q, false, s[EscapeLen(s)..])
      else [s[0]] + Strip(if s[0] == q.value then None else q, false, s[1..])
    else if IsQuote(s[0]) then [s[0]] + Strip(Some(s[0]), false, s[1..])
    else if CommentAt(s) then " " + Strip(None, false, s[CommentLen(s)..])
    else if UrlAt(prev, s) then s[..UrlLen(s)] + Strip(None, false, s[UrlLen(s)..])
    else [s[0]] + Strip(None, IsIdentChar(s[0]), s[1..])
  }

  function StripComments(css: string): string { Strip(None, false, css) }

  // ---- Declarations ------------------------------------------------------------------------

  function Shift(o: Option<nat>, n: nat): Option<nat> {
    if o.Some? then Some(o.value + n) else None
  }

  /** Position of the first ';' outside strings, urls and parentheses. */
  function Cut(q: Option<char>, prev: bool, s: string, depth: nat): Option<nat>
    decreases |s|
  {
    if s == "" then None
    else if q.Some? then
      if s[0] == '\\' then Shift(Cut(q, false, s[EscapeLen(s)..], depth), EscapeLen(s))
      else Shift(Cut(if s[0] == q.value then None else q, false, s[1..], depth), 1)
    else if IsQuote(s[0]) then Shift(Cut(Some(s[0]), false, s[1..], depth), 1)
    else if s[0] == '(' then Shift(Cut(None, false, s[1..], depth + 1), 1)
    else if s[0] == ')' then Shift(Cut(None, false, s[1..], if depth == 0 then 0 else depth - 1), 1)
    else if s[0] == ';' && depth == 0 then Some(0)
    else if UrlAt(prev, s) then Shift(Cut(None, false, s[UrlLen(s)..], depth), UrlLen(s))
    else Shift(Cut(None, IsIdentChar(s[0]), s[1..], depth), 1)
  }

  lemma {:induction false} CutIsSemicolon(q: Option<char>, prev: bool, s: string, depth: nat)
    ensures Cut(q, prev, s, depth).Some? ==>
      Cut(q, prev, s, depth).value < |s| && s[Cut(q, prev, s, depth).value] == ';'
    decreases |s|
  {
    if s == "" {
    } else if q.Some? {
      if s[0] == '\\' {
        CutIsSemicolon(q, false, s[EscapeLen(s)..], depth);
      } else {
        CutIsSemicolon(if s[0] == q.value then None else q, false, s[1..], depth);
      }
    } else if IsQuote(s[0]) {
      CutIsSemicolon(Some(s[0]), false, s[1..], depth);
    } else if s[0] == '(' {
      CutIsSemicolon(None, false, s[1..], depth + 1);
    } else if s[0] == ')' {
      CutIsSemicolon(None, false, s[1..], if depth == 0 then 0 else depth - 1);
    } else if s[0] == ';' && depth == 0 {
    } else if UrlAt(prev, s) {
      CutIsSemicolon(None, false, s[UrlLen(s)..], depth);
    } else {
      CutIsSemicolon(None, IsIdentChar(s[0]), s[1..], depth);
    }
  }

  function Declarations(s: string): seq<string>
    decreases |s|
  {
    var cut := Cut(None, false, s, 0);
    if cut.None? then [s]
    else
      CutIsSemicolon(None, false, s, 0);
      [s[..cut.value]] + Declarations(s[cut.value + 1..])
  }

  function TrimEnd(s: string): (t: string)
    ensures t <= s
  {
    if s != "" && IsSpace(s[|s| - 1]) then TrimEnd(s[..|s| - 1]) else s
  }

  function TrimStart(s: string): string {
    if s != "" && IsSpace(s[0]) then TrimStart(s[1..]) else s
  }

  function Trim(s: string): string { TrimEnd(TrimStart(s)) }

  ghost predicate Tight(s: string) { s != "" && !IsSpace(s[0]) && !IsSpace(s[|s| - 1]) }

  lemma TightIsTrimmed(s: string)
    requires Tight(s)
    ensures Trim(s) == s
  {
  }

  const IMPORTANT: string := " !important"

  /** Matches /!\s*important$/i. */
  predicate EndsImportant(d: string) {
    && |d| >= 9 && Lower(d[|d| - 9..]) == "important"
    && var bang := TrimEnd(d[..|d| - 9]); bang != "" && bang[|bang| - 1] == '!'
  }

  function Finish(d: string): string { if EndsImportant(d) then d else d + IMPORTANT }

  /** Blank declarations are dropped, the others trimmed and made important. */
  function Kept(ds: seq<string>): seq<string>
    decreases |ds|
  {
    if ds == [] then []
    else (if Trim(ds[0]) == "" then [] else [Finish(Trim(ds[0]))]) + Kept(ds[1..])
  }

  function Join(ds: seq<string>): string {
    if ds == [] then "" else if |ds| == 1 then ds[0] else ds[0] + ";" + Join(ds[1..])
  }

  function Importantify(css: string): string { Join(Kept(Declarations(StripComments(css)))) }
}
