/** Evaluating the printed form of an expression tree gives the tree's value. */
module ExprLaws {
  import opened Wrappers
  import opened Expr
  import CssScanner

  datatype Word = True | False | Null | Undefined

  datatype Tree =
    | Keyword(word: Word)
    | Number(digits: string)
    | Text(quote: char, text: string)
    | Path(head: string, tail: Tail)
    | Not(e: Tree)
    | Compare(op: Op, l: Tree, r: Tree)

  /** What follows the head of a path; a member name is an identifier or a number. */
  datatype Tail = End | Dot(name: string, rest: Tail) | Item(key: Tree, rest: Tail)

  function WordText(w: Word): string {
    match w case True => "true" case False => "false" case Null => "null" case Undefined => "undefined"
  }

  /** Operands are printed in parentheses. */
  function Print(e: Tree): string {
    match e
    case Keyword(w) => WordText(w)
    case Number(digits) => digits
    case Text(q, text) => [q] + text + [q]
    case Path(head, tail) => head + PrintTail(tail)
    case Not(e) => "!" + Wrapped(Print(e))
    case Compare(op, l, r) => Wrapped(Print(l)) + OpText(op) + Wrapped(Print(r))
  }

  function Wrapped(s: string): string { "(" + s + ")" }

  function PrintTail(t: Tail): string {
    match t
    case End => ""
    case Dot(name, rest) => "." + name + PrintTail(rest)
    case Item(key, rest) => "[" + Print(key) + "]" + PrintTail(rest)
  }

  function Eval<V>(js: Js<V>, vals: V, e: Tree): V {
    match e
    case Keyword(True) => js.boolean(true)
    case Keyword(False) => js.boolean(false)
    case Keyword(Null) => js.nullValue
    case Keyword(Undefined) => js.undefined
    case Number(digits) => js.number(digits)
    case Text(_, text) => js.text(text)
    case Path(head, tail) => EvalTail(js, vals, tail, Member(js, vals, js.text(head)))
    case Not(e) => js.boolean(!js.truthy(Eval(js, vals, e)))
    case Compare(op, l, r) => Apply(js, op, Eval(js, vals, l), Eval(js, vals, r))
  }

  function EvalTail<V>(js: Js<V>, vals: V, t: Tail, cur: V): V {
    match t
    case End => cur
    case Dot(name, rest) => EvalTail(js, vals, rest, Member(js, cur, js.text(name)))
    case Item(key, rest) => EvalTail(js, vals, rest, Member(js, cur, Eval(js, vals, key)))
  }

  predicate IsBracket(c: char) { c == '(' || c == ')' || c == '[' || c == ']' }

  /** No bracket, and no '=' or '!' directly before a '='. */
  predicate PlainText(s: string) {
    && (forall i :: 0 <= i < |s| ==> !IsBracket(s[i]))
    && (forall i :: 0 <= i < |s| - 1 ==> !(IsOpChar(s[i]) && s[i + 1] == '='))
  }

  /** The literal's brackets nest, and the evaluator sees no operator outside them. */
  predicate SafeText(q: char, text: string) {
    Balanced(text) && FindTopLevelEquality([q] + text + [q]).None?
  }

  predicate IsIdent(s: string) { s != "" && IdentLen(s) == |s| }

  predicate WellFormed(e: Tree) {
    match e
    case Keyword(_) => true
    case Number(digits) => IsNumber(digits)
    case Text(q, text) => IsQuote(q) && SafeText(q, text)
    case Path(head, tail) => IsIdent(head) && (forall w :: head != WordText(w)) && WellFormedTail(tail)
    case Not(e) => WellFormed(e)
    case Compare(_, l, r) => WellFormed(l) && WellFormed(r)
  }

  predicate WellFormedTail(t: Tail) {
    match t
    case End => true
    case Dot(name, rest) => (IsIdent(name) || (name != "" && DigitsLen(name) == |name|)) && WellFormedTail(rest)
    case Item(key, rest) => WellFormed(key) && WellFormedTail(rest)
  }

  // ---- Nesting -----------------------------------------------------------------------------

  /** Which brackets a scan counts. */
  datatype Kind = Both | Parens | Squares

  predicate Opens(k: Kind, c: char) { (c == '(' && !k.Squares?) || (c == '[' && !k.Parens?) }

  predicate Closes(k: Kind, c: char) { (c == ')' && !k.Squares?) || (c == ']' && !k.Parens?) }

  /** The nesting depth behind `s`, or None if it ever closes more than was open. */
  function Depth(k: Kind, s: string, d: nat): Option<nat> {
    if s == "" then Some(d)
    else if Opens(k, s[0]) then Depth(k, s[1..], d + 1)
    else if Closes(k, s[0]) then (if d == 0 then None else Depth(k, s[1..], d - 1))
    else Depth(k, s[1..], d)
  }

  predicate Balanced(s: string) { forall k :: Depth(k, s, 0) == Some(0) }

  lemma {:induction false} DepthConcat(k: Kind, a: string, b: string, d: nat)
    ensures Depth(k, a + b, d) == if Depth(k, a, d).Some? then Depth(k, b, Depth(k, a, d).value) else None
    decreases |a|
  {
    if a == "" {
      assert a + b == b;
    } else {
      assert (a + b)[1..] == a[1..] + b;
      DepthConcat(k, a[1..], b, if Opens(k, a[0]) then d + 1 else if Closes(k, a[0]) && d > 0 then d - 1 else d);
    }
  }

  lemma {:induction false} DepthShift(k: Kind, s: string, d: nat, more: nat)
    requires Depth(k, s, d).Some?
    ensures Depth(k, s, d + more) == Some(Depth(k, s, d).value + more)
    decreases |s|
  {
    if s != "" {
      DepthShift(k, s[1..], if Opens(k, s[0]) then d + 1 else if Closes(k, s[0]) then d - 1 else d, more);
    }
  }

  lemma BalancedAt(k: Kind, s: string, d: nat)
    requires Balanced(s)
    ensures Depth(k, s, d) == Some(d)
  {
    DepthShift(k, s, 0, d);
  }

  lemma BalancedConcat(a: string, b: string)
    requires Balanced(a) && Balanced(b)
    ensures Balanced(a + b)
  {
    forall k
      ensures Depth(k, a + b, 0) == Some(0)
    {
      DepthConcat(k, a, b, 0);
    }
  }

  lemma {:induction false} NoBracketsBalanced(s: string)
    requires forall i :: 0 <= i < |s| ==> !IsBracket(s[i])
    ensures Balanced(s)
  {
    forall k
      ensures Depth(k, s, 0) == Some(0)
    {
      NoBracketsDepth(k, s, 0);
    }
  }

  lemma {:induction false} NoBracketsDepth(k: Kind, s: string, d: nat)
    requires forall i :: 0 <= i < |s| ==> !IsBracket(s[i])
    ensures Depth(k, s, d) == Some(d)
    decreases |s|
  {
    if s != "" {
      assert !IsBracket(s[0]);
      NoBracketsDepth(k, s[1..], d);
    }
  }

  lemma BracketedBalanced(open: char, s: string, close: char)
    requires Balanced(s) && ((open == '(' && close == ')') || (open == '[' && close == ']'))
    ensures Balanced([open] + s + [close])
  {
    forall k
      ensures Depth(k, [open] + s + [close], 0) == Some(0)
    {
      var d := if Opens(k, open) then 1 else 0;
      BalancedAt(k, s, d);
      assert Depth(k, [open], 0) == Some(d) && Depth(k, [close], d) == Some(0);
      DepthConcat(k, [open], s, 0);
      DepthConcat(k, [open] + s, [close], 0);
    }
  }

  // ---- Quiet text: no operator outside brackets --------------------------------------------

  /** Scanning `s` from depth `d` meets no operator at depth 0, even at its end. */
  ghost predicate Quiet(s: string, d: nat)
    requires Depth(Both, s, d).Some?
    decreases |s|
  {
    if s == "" then true
    else
      && (d == 0 && IsOpChar(s[0]) ==> |s| > 1 && s[1] != '=')
      && Quiet(s[1..], if Opens(Both, s[0]) then d + 1 else if Closes(Both, s[0]) then d - 1 else d)
  }

  /** Text that is nested inside a bracket is quiet. */
  lemma {:induction false} InnerIsQuiet(s: string, d: nat, more: nat)
    requires more > 0 && Depth(Both, s, d).Some? && Depth(Both, s, d + more).Some?
    ensures Quiet(s, d + more)
    decreases |s|
  {
    if s != "" {
      InnerIsQuiet(s[1..], if Opens(Both, s[0]) then d + 1 else if Closes(Both, s[0]) then d - 1 else d, more);
    }
  }

  lemma {:induction false} QuietConcat(a: string, b: string, d: nat)
    requires Depth(Both, a, d).Some? && Quiet(a, d)
    requires Depth(Both, b, Depth(Both, a, d).value).Some? && Quiet(b, Depth(Both, a, d).value)
    requires Depth(Both, a + b, d).Some?
    ensures Quiet(a + b, d)
    decreases |a|
  {
    if a == "" {
      assert a + b == b;
    } else {
      assert (a + b)[1..] == a[1..] + b;
      QuietConcat(a[1..], b, if Opens(Both, a[0]) then d + 1 else if Closes(Both, a[0]) then d - 1 else d);
    }
  }

  lemma BracketedQuiet(open: char, s: string, close: char)
    requires Balanced(s) && ((open == '(' && close == ')') || (open == '[' && close == ']'))
    ensures Balanced([open] + s + [close]) && Quiet([open] + s + [close], 0)
  {
    BracketedBalanced(open, s, close);
    BalancedAt(Both, s, 1);
    InnerIsQuiet(s, 0, 1);
    DepthConcat(Both, s, [close], 1);
    QuietConcat(s, [close], 1);
    assert [open] + s + [close] == [open] + (s + [close]);
    assert ([open] + (s + [close]))[1..] == s + [close];
  }

  /** The equality scan passes over quiet text. */
  lemma {:induction false} ScanPasses(before: string, s: string, d: nat, rest: string)
    requires Depth(Both, s, d).Some? && Quiet(s, d)
    ensures EqualityFrom(before, s + rest, d) == EqualityFrom(before + s, rest, Depth(Both, s, d).value)
    decreases |s|
  {
    if s == "" {
      assert s + rest == rest && before + s == before;
    } else {
      var u := s + rest;
      assert u[1..] == s[1..] + rest;
      assert before + [s[0]] + s[1..] == before + s;
      var d' := if Opens(Both, s[0]) then d + 1 else if Closes(Both, s[0]) then d - 1 else d;
      assert EqualityFrom(before, u, d) == EqualityFrom(before + [s[0]], u[1..], d');
      ScanPasses(before + [s[0]], s[1..], d', rest);
    }
  }

  lemma QuietHasNoEquality(s: string)
    requires Balanced(s) && Quiet(s, 0)
    ensures FindTopLevelEquality(s) == None
  {
    assert s + "" == s;
    ScanPasses("", s, 0, "");
  }

  lemma {:induction false} PlainIsQuiet(s: string)
    requires PlainText(s) && (s != "" ==> !IsOpChar(s[|s| - 1]))
    ensures Depth(Both, s, 0).Some? && Quiet(s, 0)
    decreases |s|
  {
    if s != "" {
      assert !IsBracket(s[0]);
      forall i | 0 <= i < |s| - 1
        ensures !IsBracket(s[1..][i]) && (i < |s| - 2 ==> !(IsOpChar(s[1..][i]) && s[1..][i + 1] == '='))
      {
        assert s[1..][i] == s[i + 1];
        assert i < |s| - 2 ==> s[1..][i + 1] == s[i + 2];
      }
      PlainIsQuiet(s[1..]);
    }
  }

  // ---- Parentheses -------------------------------------------------------------------------

  lemma {:induction false} WrapsPasses(s: string, d: nat, more: nat, rest: string)
    requires more > 0 && Depth(Parens, s, d).Some? && rest != ""
    ensures WrapsFrom(s + rest, d + more) == WrapsFrom(rest, Depth(Parens, s, d).value + more)
    decreases |s|
  {
    if s == "" {
      assert s + rest == rest;
    } else {
      assert (s + rest)[1..] == s[1..] + rest;
      WrapsPasses(s[1..], if s[0] == '(' then d + 1 else if s[0] == ')' then d - 1 else d, more, rest);
    }
  }

  /** After "(" + s + ")" with balanced `s`: the parentheses wrap the whole text exactly if nothing
      follows. */
  lemma WrapsWhole(s: string, rest: string)
    requires Balanced(s)
    ensures ParensWrapWhole(Wrapped(s) + rest) <==> rest == ""
  {
    var u := Wrapped(s) + rest;
    assert u[1..] == s + (")" + rest);
    WrapsPasses(s, 0, 1, ")" + rest);
    assert Depth(Parens, s, 0) == Some(0);
  }

  lemma {:induction false} ClosesBehind(s: string, d: nat, more: nat, rest: string)
    requires more > 0 && Depth(Squares, s, d).Some?
    ensures CloseSquare(s + rest, d + more) ==
      var r := CloseSquare(rest, Depth(Squares, s, d).value + more);
      if r.Some? then Some(r.value + |s|) else None
    decreases |s|
  {
    if s == "" {
      assert s + rest == rest;
    } else {
      assert (s + rest)[1..] == s[1..] + rest;
      ClosesBehind(s[1..], if s[0] == '[' then d + 1 else if s[0] == ']' then d - 1 else d, more, rest);
    }
  }

  // ---- Words -------------------------------------------------------------------------------

  lemma {:induction false} PartsAre(s: string)
    ensures forall i :: 0 <= i < PartsLen(s) ==> IsIdentPart(s[i])
    ensures PartsLen(s) < |s| ==> !IsIdentPart(s[PartsLen(s)])
    decreases |s|
  {
    if s != "" && IsIdentPart(s[0]) {
      PartsAre(s[1..]);
      assert forall i :: 0 < i < PartsLen(s) ==> s[i] == s[1..][i - 1];
    }
  }

  lemma {:induction false} DigitsAre(s: string)
    ensures forall i :: 0 <= i < DigitsLen(s) ==> IsDigit(s[i])
    decreases |s|
  {
    if s != "" && IsDigit(s[0]) {
      DigitsAre(s[1..]);
      assert forall i :: 0 < i < DigitsLen(s) ==> s[i] == s[1..][i - 1];
    }
  }

  /** Identifier and number characters: no bracket, operator, quote or space among them. */
  predicate IsWordChar(c: char) { IsIdentPart(c) || c == '-' || c == '.' }

  lemma IdentIsWord(s: string)
    requires IsIdent(s) || DigitsLen(s) == |s|
    ensures forall i :: 0 <= i < |s| ==> IsIdentPart(s[i])
  {
    if IsIdent(s) {
      PartsAre(s[1..]);
      assert forall i :: 0 < i < |s| ==> s[i] == s[1..][i - 1];
    } else {
      DigitsAre(s);
    }
  }

  lemma NumberIsWord(s: string)
    requires IsNumber(s)
    ensures s != "" && (s[0] == '-' || IsDigit(s[0]))
    ensures forall i :: 0 <= i < |s| ==> IsWordChar(s[i])
  {
    var k := if s[0] == '-' then 1 else 0;
    var t := s[k..];
    var n := DigitsLen(t);
    DigitsAre(t);
    if n < |t| {
      DigitsAre(t[n + 1..]);
    }
    forall i | 0 <= i < |s|
      ensures IsWordChar(s[i])
    {
      if i >= k {
        assert s[i] == t[i - k];
        if i - k > n { assert s[i] == t[n + 1..][i - k - n - 1]; }
      }
    }
  }

  lemma {:induction false} WordIsQuiet(s: string)
    requires forall i :: 0 <= i < |s| ==> IsWordChar(s[i])
    ensures Balanced(s) && Quiet(s, 0)
  {
    NoBracketsBalanced(s);
    PlainIsQuiet(s);
  }

  lemma QuietPair(a: string, b: string)
    requires Balanced(a) && Balanced(b) && Quiet(a, 0) && Quiet(b, 0)
    ensures Balanced(a + b) && Quiet(a + b, 0)
  {
    BalancedConcat(a, b);
    assert Depth(Both, a, 0) == Some(0);
    QuietConcat(a, b, 0);
  }

  // ---- The shape of printed text -----------------------------------------------------------

  lemma {:induction false} PrintShape(e: Tree)
    requires WellFormed(e)
    ensures CssScanner.Tight(Print(e)) && Balanced(Print(e)) && (e.Compare? || e.Text? || Quiet(Print(e), 0))
    decreases e
  {
    hide Depth, Quiet, Balanced, IsNumber, IdentLen;
    match e
    case Keyword(w) => WordIsQuiet(WordText(w));
    case Number(digits) => NumberIsWord(digits); WordIsQuiet(digits);
    case Text(q, text) => TextShape(q, text);
    case Path(head, tail) => TailShape(tail); PathShape(head, PrintTail(tail));
    case Not(e1) => PrintShape(e1); NotShape(Print(e1));
    case Compare(op, l, r) => PrintShape(l); PrintShape(r); CompareShape(Print(l), op, Print(r));
  }

  lemma PathShape(head: string, tail: string)
    requires IsIdent(head) && Balanced(tail) && Quiet(tail, 0)
    requires tail != "" ==> !CssScanner.IsSpace(tail[|tail| - 1])
    ensures CssScanner.Tight(head + tail) && Balanced(head + tail) && Quiet(head + tail, 0)
  {
    IdentIsWord(head);
    WordIsQuiet(head);
    QuietPair(head, tail);
  }

  lemma NotShape(s: string)
    requires Balanced(s)
    ensures var p := "!" + Wrapped(s); CssScanner.Tight(p) && Balanced(p) && Quiet(p, 0)
  {
    var p := "!" + Wrapped(s);
    BracketedQuiet('(', s, ')');
    NoBracketsBalanced("!");
    BalancedConcat("!", Wrapped(s));
    assert p[1..] == Wrapped(s);
  }

  lemma CompareShape(l: string, op: Op, r: string)
    requires Balanced(l) && Balanced(r)
    ensures var p := Wrapped(l) + OpText(op) + Wrapped(r); CssScanner.Tight(p) && Balanced(p)
  {
    BracketedBalanced('(', l, ')');
    BracketedBalanced('(', r, ')');
    NoBracketsBalanced(OpText(op));
    BalancedConcat(Wrapped(l), OpText(op));
    BalancedConcat(Wrapped(l) + OpText(op), Wrapped(r));
  }

  lemma TextShape(q: char, text: string)
    requires IsQuote(q) && Balanced(text)
    ensures var p := [q] + text + [q]; CssScanner.Tight(p) && Balanced(p)
  {
    NoBracketsBalanced([q]);
    BalancedConcat([q], text);
    BalancedConcat([q] + text, [q]);
  }

  /** Text without brackets and operators can be printed as a literal. */
  lemma PlainTextIsSafe(q: char, text: string)
    requires (q == '"' || q == '\'') && PlainText(text)
    ensures SafeText(q, text)
  {
    var p := [q] + text + [q];
    forall i | 0 <= i < |p| - 1
      ensures !(IsOpChar(p[i]) && p[i + 1] == '=')
    {
      if 0 < i < |p| - 2 { assert p[i] == text[i - 1] && p[i + 1] == text[i]; }
    }
    NoBracketsBalanced(text);
    NoBracketsBalanced(p);
    PlainIsQuiet(p);
    QuietHasNoEquality(p);
  }

  lemma {:induction false} TailShape(t: Tail)
    requires WellFormedTail(t)
    ensures var p := PrintTail(t);
      && Balanced(p) && Quiet(p, 0)
      && (p != "" ==> (p[0] == '.' || p[0] == '[') && !CssScanner.IsSpace(p[|p| - 1]))
    decreases t
  {
    match t
    case End =>
      WordIsQuiet("");
    case Dot(name, rest) =>
      IdentIsWord(name);
      WordIsQuiet("." + name);
      TailShape(rest);
      QuietPair("." + name, PrintTail(rest));
    case Item(key, rest) =>
      PrintShape(key);
      TailShape(rest);
      hide WellFormedTail, Balanced, Quiet;
      BracketedQuiet('[', Print(key), ']');
      QuietPair("[" + Print(key) + "]", PrintTail(rest));
  }

  // ---- The main result ---------------------------------------------------------------------

  /** Parentheses around a printed expression disappear. */
  lemma ResolveWrapped<V>(js: Js<V>, vals: V, s: string)
    requires Balanced(s)
    ensures Resolve(js, vals, Wrapped(s)) == Resolve(js, vals, s)
  {
    var p := Wrapped(s);
    CssScanner.TightIsTrimmed(p);
    assert p + "" == p;
    WrapsWhole(s, "");
    assert p[1..|p| - 1] == s;
  }

  lemma FindsOperator(l: string, op: Op, r: string)
    requires Balanced(l)
    ensures FindTopLevelEquality(Wrapped(l) + OpText(op) + Wrapped(r)) == Some(Equality(|Wrapped(l)|, op))
  {
    var a, o, b := Wrapped(l), OpText(op), Wrapped(r);
    assert a + o + b == a + (o + b);
    BracketedQuiet('(', l, ')');
    assert Depth(Both, a, 0) == Some(0);
    hide Depth, Quiet, Balanced;
    ScanPasses("", a, 0, o + b);
    assert "" + a == a;
    CssScanner.TightIsTrimmed(a);
    assert a[|a| - 1] == ')';
    assert (o + b)[0] == o[0] && (o + b)[1] == '=' && ((o + b)[2] == '=' <==> op.strict);
  }

  lemma ResolveCompare<V>(js: Js<V>, vals: V, op: Op, l: string, r: string)
    requires Balanced(l) && Balanced(r)
    ensures Resolve(js, vals, Wrapped(l) + OpText(op) + Wrapped(r)) ==
            Apply(js, op, Resolve(js, vals, l), Resolve(js, vals, r))
  {
    hide Depth, Quiet, Balanced, WrapsFrom, EqualityFrom, FindTopLevelEquality;
    var a, o, b := Wrapped(l), OpText(op), Wrapped(r);
    var p := a + o + b;
    CssScanner.TightIsTrimmed(p);
    assert p == a + (o + b);
    WrapsWhole(l, o + b);
    FindsOperator(l, op, r);
    assert p[..|a|] == a && p[|a| + OpLen(op)..] == b;
    ResolveWrapped(js, vals, l);
    ResolveWrapped(js, vals, r);
  }

  /** Quiet text that is not parenthesised goes to the literal and path cases. */
  lemma NoOperator(s: string)
    requires CssScanner.Tight(s) && Balanced(s) && Quiet(s, 0)
    ensures CssScanner.Trim(s) == s && FindTopLevelEquality(s) == None
  {
    CssScanner.TightIsTrimmed(s);
    QuietHasNoEquality(s);
  }

  lemma PathIsNoWord(head: string, t: string, w: Word)
    requires head != WordText(w) && (t != "" ==> t[0] == '.' || t[0] == '[')
    ensures head + t != WordText(w)
  {
    assert forall i :: 0 <= i < |WordText(w)| ==> 'a' <= WordText(w)[i] <= 'z';
    if t == "" {
      assert head + t == head;
    } else {
      assert (head + t)[|head|] == t[0];
    }
  }

  lemma PathIsNoLiteral(head: string, tail: Tail)
    requires IsIdent(head) && (forall w :: head != WordText(w)) && WellFormedTail(tail)
    ensures var p := Print(Path(head, tail));
      && p[0] != '(' && p[0] != '!' && !IsQuote(p[0]) && !IsNumber(p)
      && (forall w :: p != WordText(w)) && IdentLen(p) == |head|
  {
    hide Depth, Quiet, Balanced, IsNumber;
    var t := PrintTail(tail);
    var p := head + t;
    TailShape(tail);
    assert p[0] == head[0] && IsIdentStart(p[0]);
    forall w
      ensures p != WordText(w)
    {
      PathIsNoWord(head, t, w);
    }
    if IsNumber(p) {
      NumberIsWord(p);
    }
    IdentExtends(head, t);
  }

  /** An identifier is read to its end when no identifier character follows. */
  lemma IdentExtends(name: string, rest: string)
    requires IsIdent(name) && (rest != "" ==> !IsIdentPart(rest[0]))
    ensures IdentLen(name + rest) == |name|
  {
    assert (name + rest)[1..] == name[1..] + rest;
    PartsExtend(name[1..], rest);
  }

  lemma {:induction false} PartsExtend(name: string, rest: string)
    requires PartsLen(name) == |name| && (rest != "" ==> !IsIdentPart(rest[0]))
    ensures PartsLen(name + rest) == |name|
    decreases |name|
  {
    if name == "" {
      assert name + rest == rest;
    } else {
      assert (name + rest)[1..] == name[1..] + rest;
      PartsExtend(name[1..], rest);
    }
  }

  lemma {:induction false} DigitsExtend(name: string, rest: string)
    requires DigitsLen(name) == |name| && (rest != "" ==> !IsIdentPart(rest[0]))
    ensures DigitsLen(name + rest) == |name|
    decreases |name|
  {
    if name == "" {
      assert name + rest == rest;
    } else {
      assert (name + rest)[1..] == name[1..] + rest;
      DigitsExtend(name[1..], rest);
    }
  }

  /** The evaluator applied to a tree's printed text gives the tree's value. */
  lemma {:induction false} ResolvesPrinted<V>(js: Js<V>, vals: V, e: Tree)
    requires WellFormed(e)
    ensures Resolve(js, vals, Print(e)) == Eval(js, vals, e)
    decreases e
  {
    PrintShape(e);
    match e
    case Compare(op, l, r) =>
      PrintShape(l);
      PrintShape(r);
      ResolveCompare(js, vals, op, Print(l), Print(r));
      ResolvesPrinted(js, vals, l);
      ResolvesPrinted(js, vals, r);
    case Not(e1) =>
      PrintShape(e1);
      ResolveNot(js, vals, Print(e1));
      ResolvesPrinted(js, vals, e1);
    case Path(head, tail) => ResolvesPath(js, vals, head, tail);
    case Keyword(w) => ResolvesKeyword(js, vals, w);
    case Number(digits) => ResolvesNumber(js, vals, digits);
    case Text(q, text) => ResolvesText(js, vals, q, text);
  }

  lemma ResolveNot<V>(js: Js<V>, vals: V, s: string)
    requires Balanced(s)
    ensures Resolve(js, vals, "!" + Wrapped(s)) == js.boolean(!js.truthy(Resolve(js, vals, s)))
  {
    var p := "!" + Wrapped(s);
    NotShape(s);
    NoOperator(p);
    assert p[1..] == Wrapped(s);
    ResolveWrapped(js, vals, s);
  }

  lemma ResolvesKeyword<V>(js: Js<V>, vals: V, w: Word)
    ensures Resolve(js, vals, WordText(w)) == Eval(js, vals, Keyword(w))
  {
    WordIsQuiet(WordText(w));
    NoOperator(WordText(w));
    hide Depth, Quiet, Balanced, EqualityFrom, FindTopLevelEquality, CssScanner.Trim;
  }

  lemma ResolvesNumber<V>(js: Js<V>, vals: V, digits: string)
    requires IsNumber(digits)
    ensures Resolve(js, vals, digits) == js.number(digits)
  {
    hide IsNumber, Depth, Quiet, Balanced, EqualityFrom, FindTopLevelEquality, CssScanner.Trim;
    NumberIsWord(digits);
    WordIsQuiet(digits);
    NoOperator(digits);
  }

  lemma ResolvesText<V>(js: Js<V>, vals: V, q: char, text: string)
    requires IsQuote(q) && FindTopLevelEquality([q] + text + [q]).None?
    ensures Resolve(js, vals, [q] + text + [q]) == js.text(text)
  {
    hide FindTopLevelEquality, IsNumber;
    var p := [q] + text + [q];
    CssScanner.TightIsTrimmed(p);
    assert p[1..|p| - 1] == text;
    if IsNumber(p) {
      NumberIsWord(p);
    }
  }

  /** A literal with an operator in it is compared, not quoted. */
  lemma ComparesText<V>(js: Js<V>, vals: V, q: char, text: string)
    requires IsQuote(q) && FindTopLevelEquality([q] + text + [q]).Some?
    ensures exists b :: Resolve(js, vals, [q] + text + [q]) == js.boolean(b)
  {
    hide FindTopLevelEquality, IsNumber;
    var p := [q] + text + [q];
    CssScanner.TightIsTrimmed(p);
    var eq := FindTopLevelEquality(p).value;
    var l, r := Resolve(js, vals, p[..eq.index]), Resolve(js, vals, p[eq.index + OpLen(eq.op)..]);
    assert Resolve(js, vals, p) == Apply(js, eq.op, l, r);
  }

  ghost predicate ReadsAsText(q: char, text: string) {
    forall js: Js<bool>, vals: bool :: Resolve(js, vals, [q] + text + [q]) == js.text(text)
  }

  /** The exact condition on a string literal: it evaluates to its text, whatever the value operations
      are, if and only if the evaluator sees no equality operator in it. */
  lemma LiteralReadsIff(q: char, text: string)
    requires q == '"' || q == '\''
    ensures ReadsAsText(q, text) <==> FindTopLevelEquality([q] + text + [q]).None?
  {
    hide FindTopLevelEquality, Resolve;
    if FindTopLevelEquality([q] + text + [q]).None? {
      forall js: Js<bool>, vals: bool
        ensures Resolve(js, vals, [q] + text + [q]) == js.text(text)
      {
        ResolvesText(js, vals, q, text);
      }
    } else {
      var telling: Js<bool> := Js(
        false, false, _ => false, _ => false, _ => true,
        (_, _) => false, (_, _) => false, _ => false, _ => false, (_, _) => false);
      ComparesText(telling, false, q, text);
    }
  }

  /** Trimmed text that is no operator, word, number or string is a path. */
  lemma ResolvesAsPath<V>(js: Js<V>, vals: V, p: string)
    requires p != "" && CssScanner.Trim(p) == p && FindTopLevelEquality(p) == None
    requires p[0] != '(' && p[0] != '!' && !IsQuote(p[0]) && !IsNumber(p) && forall w :: p != WordText(w)
    ensures Resolve(js, vals, p) == ResolvePath(js, vals, p)
  {
    hide CssScanner.Trim, FindTopLevelEquality, IsNumber, ResolvePath, WrapsFrom;
    assert p != WordText(True) && p != WordText(False) && p != WordText(Null) && p != WordText(Undefined);
  }

  lemma {:induction false} ResolvesPath<V>(js: Js<V>, vals: V, head: string, tail: Tail)
    requires WellFormed(Path(head, tail))
    ensures Resolve(js, vals, Print(Path(head, tail))) == Eval(js, vals, Path(head, tail))
    decreases tail, 1
  {
    hide Depth, Quiet, Balanced, IsNumber, EqualityFrom, FindTopLevelEquality, CssScanner.Trim, PathFrom, Resolve;
    var p := Print(Path(head, tail));
    PrintShape(Path(head, tail));
    NoOperator(p);
    PathIsNoLiteral(head, tail);
    ResolvesAsPath(js, vals, p);
    assert p[..|head|] == head && p[|head|..] == PrintTail(tail);
    FollowsTail(js, vals, tail, Member(js, vals, js.text(head)));
  }

  lemma {:induction false} FollowsTail<V>(js: Js<V>, vals: V, t: Tail, cur: V)
    requires WellFormedTail(t)
    ensures PathFrom(js, vals, PrintTail(t), cur) == EvalTail(js, vals, t, cur)
    decreases t, 0
  {
    match t
    case End =>
    case Dot(name, rest) =>
      TailShape(rest);
      FollowsName(js, vals, name, PrintTail(rest), cur);
      FollowsTail(js, vals, rest, Member(js, cur, js.text(name)));
    case Item(key, rest) =>
      PrintShape(key);
      FollowsKey(js, vals, Print(key), PrintTail(rest), cur);
      ResolvesPrinted(js, vals, key);
      FollowsTail(js, vals, rest, Member(js, cur, Eval(js, vals, key)));
  }

  lemma ReadsName(name: string, rest: string)
    requires IsIdent(name) || (name != "" && DigitsLen(name) == |name|)
    requires rest != "" ==> !IsIdentPart(rest[0])
    ensures |name| == if IdentLen(name + rest) > 0 then IdentLen(name + rest) else DigitsLen(name + rest)
  {
    if IsIdent(name) {
      IdentExtends(name, rest);
    } else {
      DigitsAre(name);
      assert IsDigit((name + rest)[0]);
      DigitsExtend(name, rest);
    }
  }

  lemma FollowsName<V>(js: Js<V>, vals: V, name: string, rest: string, cur: V)
    requires IsIdent(name) || (name != "" && DigitsLen(name) == |name|)
    requires rest != "" ==> !IsIdentPart(rest[0])
    ensures PathFrom(js, vals, "." + name + rest, cur) == PathFrom(js, vals, rest, Member(js, cur, js.text(name)))
  {
    hide IdentLen, DigitsLen, PartsLen, Resolve, CloseSquare;
    ReadsName(name, rest);
    var u := name + rest;
    assert ("." + name + rest)[1..] == u && u[|name|..] == rest && u[..|name|] == name;
  }

  lemma ClosesKey(key: string, rest: string)
    requires Balanced(key)
    ensures CloseSquare(key + ("]" + rest), 1) == Some(|key|)
  {
    assert Depth(Squares, key, 0) == Some(0);
    ClosesBehind(key, 0, 1, "]" + rest);
  }

  lemma FollowsKey<V>(js: Js<V>, vals: V, key: string, rest: string, cur: V)
    requires Balanced(key)
    ensures PathFrom(js, vals, "[" + key + "]" + rest, cur) ==
            PathFrom(js, vals, rest, Member(js, cur, Resolve(js, vals, key)))
  {
    hide Resolve, CloseSquare, Balanced;
    var u := key + ("]" + rest);
    assert ("[" + key + "]" + rest)[1..] == u;
    ClosesKey(key, rest);
    assert u[..|key|] == key && u[|key| + 1..] == rest;
  }

  // ---- What the operations yield -----------------------------------------------------------

  /** A comparison of two balanced texts, in JavaScript's own operations. */
  lemma ComparisonsAre<V>(js: Js<V>, vals: V, l: string, r: string)
    requires Balanced(l) && Balanced(r)
    ensures (var lv, rv := Resolve(js, vals, l), Resolve(js, vals, r);
             && Resolve(js, vals, ("(" + l + ")") + "===" + ("(" + r + ")")) == js.boolean(js.strictEq(lv, rv))
             && Resolve(js, vals, ("(" + l + ")") + "!==" + ("(" + r + ")")) == js.boolean(!js.strictEq(lv, rv))
             && Resolve(js, vals, ("(" + l + ")") + "==" + ("(" + r + ")")) == js.boolean(js.looseEq(lv, rv))
             && Resolve(js, vals, ("(" + l + ")") + "!=" + ("(" + r + ")")) == js.boolean(!js.looseEq(lv, rv)))
  {
    hide Resolve, Balanced;
    ResolveCompare(js, vals, Op(false, true), l, r);
    ResolveCompare(js, vals, Op(true, true), l, r);
    ResolveCompare(js, vals, Op(false, false), l, r);
    ResolveCompare(js, vals, Op(true, false), l, r);
    assert OpText(Op(false, true)) == "===" && OpText(Op(true, true)) == "!==";
    assert OpText(Op(false, false)) == "==" && OpText(Op(true, false)) == "!=";
  }

  lemma WordsAre<V>(js: Js<V>, vals: V)
    ensures Resolve(js, vals, "true") == js.boolean(true) && Resolve(js, vals, "false") == js.boolean(false)
    ensures Resolve(js, vals, "null") == js.nullValue && Resolve(js, vals, "undefined") == js.undefined
    ensures Resolve(js, vals, "") == js.undefined
  {
    ResolvesKeyword(js, vals, True);
    ResolvesKeyword(js, vals, False);
    ResolvesKeyword(js, vals, Null);
    ResolvesKeyword(js, vals, Undefined);
    assert WordText(True) == "true" && WordText(False) == "false";
    assert WordText(Null) == "null" && WordText(Undefined) == "undefined";
  }

  function Append(t: Tail, last: Tail): Tail {
    match t
    case End => last
    case Dot(name, rest) => Dot(name, Append(rest, last))
    case Item(key, rest) => Item(key, Append(rest, last))
  }

  lemma {:induction false} AppendPrints(t: Tail, last: Tail)
    ensures PrintTail(Append(t, last)) == PrintTail(t) + PrintTail(last)
    ensures WellFormedTail(t) && WellFormedTail(last) ==> WellFormedTail(Append(t, last))
  {
    match t
    case End =>
    case Dot(name, rest) => AppendPrints(rest, last);
    case Item(key, rest) => AppendPrints(rest, last);
  }

  lemma {:induction false} AppendEvaluates<V>(js: Js<V>, vals: V, t: Tail, last: Tail, cur: V)
    ensures EvalTail(js, vals, Append(t, last), cur) == EvalTail(js, vals, last, EvalTail(js, vals, t, cur))
  {
    match t
    case End =>
    case Dot(name, rest) => AppendEvaluates(js, vals, rest, last, Member(js, cur, js.text(name)));
    case Item(key, rest) => AppendEvaluates(js, vals, rest, last, Member(js, cur, Eval(js, vals, key)));
  }

  lemma PathBehind<V>(js: Js<V>, vals: V, head: string, tail: Tail, last: Tail) returns (v: V)
    requires WellFormed(Path(head, tail)) && WellFormedTail(last)
    ensures v == Resolve(js, vals, Print(Path(head, tail)))
    ensures Resolve(js, vals, Print(Path(head, tail)) + PrintTail(last)) == EvalTail(js, vals, last, v)
  {
    hide Resolve, EvalTail, WellFormedTail, PrintTail, Member;
    AppendFits(head, tail, last);
    ResolvesPrinted(js, vals, Path(head, tail));
    ResolvesPrinted(js, vals, Path(head, Append(tail, last)));
    AppendEvaluates(js, vals, tail, last, Member(js, vals, js.text(head)));
    v := Resolve(js, vals, Print(Path(head, tail)));
  }

  lemma AppendFits(head: string, tail: Tail, last: Tail)
    requires WellFormed(Path(head, tail)) && WellFormedTail(last)
    ensures WellFormed(Path(head, Append(tail, last)))
    ensures Print(Path(head, Append(tail, last))) == Print(Path(head, tail)) + PrintTail(last)
  {
    hide WellFormedTail, PrintTail, Append, IdentLen;
    AppendPrints(tail, last);
    assert head + (PrintTail(tail) + PrintTail(last)) == (head + PrintTail(tail)) + PrintTail(last);
  }

  /** A path's head and each of its members is looked up by JavaScript's own operation, in a value that
      is neither null nor undefined; in any other value it is undefined. */
  lemma MembersAre<V>(js: Js<V>, vals: V, head: string, tail: Tail, name: string, key: Tree)
    requires WellFormed(Path(head, tail)) && WellFormed(key) && WellFormedTail(Dot(name, End))
    ensures Resolve(js, vals, head) == if js.nullish(vals) then js.undefined else js.index(vals, js.text(head))
    ensures (var p := Print(Path(head, tail)); var v := Resolve(js, vals, p);
             && (js.nullish(v) ==>
                   Resolve(js, vals, p + ("." + name)) == js.undefined == Resolve(js, vals, p + ("[" + Print(key) + "]")))
             && (!js.nullish(v) ==>
                   && Resolve(js, vals, p + ("." + name)) == js.index(v, js.text(name))
                   && Resolve(js, vals, p + ("[" + Print(key) + "]")) == js.index(v, Resolve(js, vals, Print(key)))))
  {
    hide Resolve, Balanced, WellFormed, WellFormedTail;
    MembersFit(head, tail, name, key);
    ResolvesPrinted(js, vals, Path(head, End));
    assert Print(Path(head, End)) == head;
    ResolvesPrinted(js, vals, key);
    var v := PathBehind(js, vals, head, tail, Dot(name, End));
    v := PathBehind(js, vals, head, tail, Item(key, End));
    assert PrintTail(Dot(name, End)) == "." + name && PrintTail(Item(key, End)) == "[" + Print(key) + "]";
  }

  lemma MembersFit(head: string, tail: Tail, name: string, key: Tree)
    requires WellFormed(Path(head, tail)) && WellFormed(key)
    ensures WellFormed(Path(head, End)) && WellFormedTail(Item(key, End))
  {
  }

  /** A path that goes on with anything else, or stops at a point, or never closes a bracket, is
      undefined. */
  lemma BrokenPaths<V>(js: Js<V>, vals: V, rest: string, cur: V)
    requires rest != ""
    requires || (rest[0] != '.' && rest[0] != '[')
             || (rest[0] == '.' && (|rest| == 1 || !IsIdentPart(rest[1])))
             || (rest[0] == '[' && CloseSquare(rest[1..], 1).None?)
    ensures PathFrom(js, vals, rest, cur) == js.undefined
  {
  }
}
