/** The template runtime's expression evaluator (support.js, src/expr.ts): it works on the raw text,
    finding operators and parentheses by scanning. JavaScript's own operations on values are a
    parameter. */
module Expr {
  import opened Wrappers
  import CssScanner

  /** The value operations the evaluator uses, over any type of values. */
  datatype Js<!V> = Js(
    undefined: V,
    nullValue: V,
    boolean: bool -> V,
    number: string -> V,           // Number(text)
    text: string -> V,
    strictEq: (V, V) -> bool,
    looseEq: (V, V) -> bool,
    truthy: V -> bool,
    nullish: V -> bool,            // value == null
    index: (V, V) -> V)            // value[key]

  function Member<V>(js: Js<V>, value: V, key: V): V {
    if js.nullish(value) then js.undefined else js.index(value, key)
  }

  datatype Op = Op(negated: bool, strict: bool)

  function OpText(op: Op): string {
    (if op.negated then "!" else "=") + if op.strict then "==" else "="
  }

  function Apply<V>(js: Js<V>, op: Op, l: V, r: V): V {
    var eq := if op.strict then js.strictEq(l, r) else js.looseEq(l, r);
    js.boolean(eq != op.negated)
  }

  // ---- Lexical pieces ----------------------------------------------------------------------

  predicate IsDigit(c: char) { '0' <= c <= '9' }

  predicate IsIdentStart(c: char) { 'A' <= c <= 'Z' || 'a' <= c <= 'z' || c == '_' || c == '$' }

  predicate IsIdentPart(c: char) { IsIdentStart(c) || IsDigit(c) }

  function PartsLen(s: string): (n: nat)
    ensures n <= |s|
  {
    if s != "" && IsIdentPart(s[0]) then 1 + PartsLen(s[1..]) else 0
  }

  /** Length of the identifier at the front, 0 if there is none. */
  function IdentLen(s: string): (n: nat)
    ensures n <= |s|
  {
    if s != "" && IsIdentStart(s[0]) then 1 + PartsLen(s[1..]) else 0
  }

  function DigitsLen(s: string): (n: nat)
    ensures n <= |s|
  {
    if s != "" && IsDigit(s[0]) then 1 + DigitsLen(s[1..]) else 0
  }

  predicate IsNumber(s: string) {
    var t := if s != "" && s[0] == '-' then s[1..] else s;
    var n := DigitsLen(t);
    n > 0 && (n == |t| || (t[n] == '.' && n + 1 < |t| && DigitsLen(t[n + 1..]) == |t| - n - 1))
  }

  predicate IsQuote(c: char) { c == '"' || c == '\'' }

  // ---- The scans ---------------------------------------------------------------------------

  /** Whether the parenthesis before `s`, nested `depth` deep, closes only at the last character. */
  predicate WrapsFrom(s: string, depth: int) {
    if |s| <= 1 then true
    else if s[0] == '(' then WrapsFrom(s[1..], depth + 1)
    else if s[0] == ')' then depth - 1 != 0 && WrapsFrom(s[1..], depth - 1)
    else WrapsFrom(s[1..], depth)
  }

  predicate ParensWrapWhole(expr: string) { WrapsFrom(expr, 0) }

  predicate IsOpChar(c: char) { c == '=' || c == '!' }

  datatype Equality = Equality(index: nat, op: Op)

  function OpLen(op: Op): nat { if op.strict then 3 else 2 }

  /** The first equality operator outside brackets in `s`, which follows `before`. */
  function EqualityFrom(before: string, s: string, depth: int): (r: Option<Equality>)
    ensures r.Some? ==> r.value.index + OpLen(r.value.op) <= |before| + |s| && r.value.index >= |before|
    decreases |s|
  {
    if s == "" then None
    else if s[0] == '[' || s[0] == '(' then EqualityFrom(before + [s[0]], s[1..], depth + 1)
    else if s[0] == ']' || s[0] == ')' then EqualityFrom(before + [s[0]], s[1..], depth - 1)
    else if depth == 0 && IsOpChar(s[0]) && |s| > 1 && s[1] == '='
            && !(before != "" && IsOpChar(before[|before| - 1])) && CssScanner.Trim(before) != "" then
      Some(Equality(|before|, Op(s[0] == '!', |s| > 2 && s[2] == '=')))
    else EqualityFrom(before + [s[0]], s[1..], depth)
  }

  function FindTopLevelEquality(expr: string): (r: Option<Equality>)
    ensures r.Some? ==> 0 < r.value.index && r.value.index + OpLen(r.value.op) <= |expr|
  {
    EqualityIsNotFirst("", expr, 0);
    EqualityFrom("", expr, 0)
  }

  lemma EqualityIsNotFirst(before: string, s: string, depth: int)
    ensures EqualityFrom(before, s, depth).Some? ==> EqualityFrom(before, s, depth).value.index > 0
    decreases |s|
  {
  }

  /** Index of the ']' that closes the bracket opened before `s`. */
  function CloseSquare(s: string, depth: nat): (r: Option<nat>)
    requires depth > 0
    ensures r.Some? ==> r.value < |s|
    decreases |s|
  {
    if s == "" then None
    else if s[0] == ']' && depth == 1 then Some(0)
    else
      var depth' := if s[0] == '[' then depth + 1 else if s[0] == ']' then depth - 1 else depth;
      var r := CloseSquare(s[1..], depth');
      if r.Some? then Some(r.value + 1) else None
  }

  // ---- The evaluator -----------------------------------------------------------------------

  lemma {:induction false} TrimShortens(s: string)
    ensures |CssScanner.TrimStart(s)| <= |s| && |CssScanner.Trim(s)| <= |s|
    decreases |s|
  {
    if s != "" && CssScanner.IsSpace(s[0]) {
      TrimShortens(s[1..]);
    }
  }

  /** Every recursive argument is strictly shorter, so evaluation terminates on every text. */
  function Resolve<V>(js: Js<V>, vals: V, src: string): V
    decreases |src|, 2
  {
    TrimShortens(src);
    var expr := CssScanner.Trim(src);
    var n := |expr|;
    if expr == "" then js.undefined
    else if expr[0] == '(' && expr[n - 1] == ')' && ParensWrapWhole(expr) then
      Resolve(js, vals, expr[1..n - 1])
    else
      var eq := FindTopLevelEquality(expr);
      if eq.Some? then
        var at := eq.value.index;
        Apply(js, eq.value.op, Resolve(js, vals, expr[..at]), Resolve(js, vals, expr[at + OpLen(eq.value.op)..]))
      else if expr[0] == '!' then js.boolean(!js.truthy(Resolve(js, vals, expr[1..])))
      else if expr == "true" then js.boolean(true)
      else if expr == "false" then js.boolean(false)
      else if expr == "null" then js.nullValue
      else if expr == "undefined" then js.undefined
      else if IsNumber(expr) then js.number(expr)
      else if n >= 2 && IsQuote(expr[0]) && expr[n - 1] == expr[0] then js.text(expr[1..n - 1])
      else ResolvePath(js, vals, expr)
  }

  function ResolvePath<V>(js: Js<V>, vals: V, expr: string): V
    decreases |expr|, 1
  {
    var n := IdentLen(expr);
    if n == 0 then js.undefined
    else PathFrom(js, vals, expr[n..], Member(js, vals, js.text(expr[..n])))
  }

  /** The value reached from `cur` along the rest of a path. */
  function PathFrom<V>(js: Js<V>, vals: V, rest: string, cur: V): V
    decreases |rest|, 0
  {
    if rest == "" then cur
    else if rest[0] == '.' then
      var t := rest[1..];
      var n := if IdentLen(t) > 0 then IdentLen(t) else DigitsLen(t);
      if n == 0 then js.undefined
      else PathFrom(js, vals, t[n..], Member(js, cur, js.text(t[..n])))
    else if rest[0] == '[' then
      var t := rest[1..];
      var j := CloseSquare(t, 1);
      if j.None? then js.undefined
      else PathFrom(js, vals, t[j.value + 1..], Member(js, cur, Resolve(js, vals, t[..j.value])))
    else js.undefined
  }
}
