/** The scanning loops of src/expr.ts and the mutually recursive evaluator built on them, proved to
    compute the functions of Expr. */
module ExprLoops {
  import opened Wrappers
  import opened Expr
  import CssScanner

  method ScanParens(expr: string) returns (whole: bool)
    ensures whole == ParensWrapWhole(expr)
  {
    var depth := 0;
    var i := 0;
    assert expr[0..] == expr;
    while i < |expr| - 1
      invariant 0 <= i <= |expr|
      invariant WrapsFrom(expr[i..], depth) == ParensWrapWhole(expr)
    {
      assert expr[i..][1..] == expr[i + 1..];
      if expr[i] == '(' {
        depth := depth + 1;
      } else if expr[i] == ')' {
        depth := depth - 1;
        if depth == 0 {
          return false;
        }
      }
      i := i + 1;
    }
    return true;
  }

  method ScanEquality(expr: string) returns (r: Option<Equality>)
    ensures r == FindTopLevelEquality(expr)
  {
    var depth := 0;
    assert expr[..0] == "" && expr[0..] == expr;
    for i := 0 to |expr|
      invariant EqualityFrom(expr[..i], expr[i..], depth) == FindTopLevelEquality(expr)
    {
      var c := expr[i];
      assert expr[i..][1..] == expr[i + 1..] && expr[..i] + [c] == expr[..i + 1];
      if c == '[' || c == '(' {
        depth := depth + 1;
      } else if c == ']' || c == ')' {
        depth := depth - 1;
      } else if depth == 0 && IsOpChar(c) && i + 1 < |expr| && expr[i + 1] == '=' {
        if i > 0 && IsOpChar(expr[i - 1]) {
          continue;
        }
        if CssScanner.Trim(expr[..i]) == "" {
          continue;
        }
        return Some(Equality(i, Op(c == '!', i + 2 < |expr| && expr[i + 2] == '=')));
      }
    }
    return None;
  }

  method Evaluate<V>(js: Js<V>, vals: V, src: string) returns (v: V)
    ensures v == Resolve(js, vals, src)
    decreases |src|, 2
  {
    hide CssScanner.Trim, FindTopLevelEquality, ParensWrapWhole, IsNumber, ResolvePath, Apply;
    TrimShortens(src);
    var expr := CssScanner.Trim(src);
    var n := |expr|;
    if expr == "" {
      return js.undefined;
    }
    if expr[0] == '(' && expr[n - 1] == ')' {
      var whole := ScanParens(expr);
      if whole {
        v := Evaluate(js, vals, expr[1..n - 1]);
        return;
      }
    }
    var eq := ScanEquality(expr);
    if eq.Some? {
      var lv := Evaluate(js, vals, expr[..eq.value.index]);
      var rv := Evaluate(js, vals, expr[eq.value.index + OpLen(eq.value.op)..]);
      return Apply(js, eq.value.op, lv, rv);
    }
    if expr[0] == '!' {
      var operand := Evaluate(js, vals, expr[1..]);
      return js.boolean(!js.truthy(operand));
    }
    if expr == "true" { return js.boolean(true); }
    if expr == "false" { return js.boolean(false); }
    if expr == "null" { return js.nullValue; }
    if expr == "undefined" { return js.undefined; }
    if IsNumber(expr) { return js.number(expr); }
    if n >= 2 && IsQuote(expr[0]) && expr[n - 1] == expr[0] {
      return js.text(expr[1..n - 1]);
    }
    v := EvaluatePath(js, vals, expr);
  }

  /** The inner loop of resolvePath: where the bracket opened before `t` closes. */
  method ScanSquares(t: string) returns (r: Option<nat>)
    ensures r == CloseSquare(t, 1)
  {
    var depth, j := 1, 0;
    assert t[0..] == t;
    while j < |t|
      invariant 0 <= j <= |t| && depth > 0
      invariant CloseSquare(t, 1) == var r := CloseSquare(t[j..], depth); if r.Some? then Some(j + r.value) else None
    {
      assert t[j..][1..] == t[j + 1..];
      if t[j] == '[' {
        depth := depth + 1;
      } else if t[j] == ']' {
        depth := depth - 1;
        if depth == 0 {
          return Some(j);
        }
      }
      j := j + 1;
    }
    return None;
  }

  function NameLen(t: string): nat { if IdentLen(t) > 0 then IdentLen(t) else DigitsLen(t) }

  lemma PathEnds<V>(js: Js<V>, vals: V, rest: string, cur: V)
    ensures rest == "" ==> PathFrom(js, vals, rest, cur) == cur
    ensures rest != "" && rest[0] != '.' && rest[0] != '[' ==> PathFrom(js, vals, rest, cur) == js.undefined
  {
  }

  lemma PathDot<V>(js: Js<V>, vals: V, expr: string, i: nat, cur: V)
    requires i < |expr| && expr[i] == '.'
    ensures (var t := expr[i + 1..]; var n := NameLen(t);
             && n <= |t|
             && PathFrom(js, vals, expr[i..], cur) ==
                if n == 0 then js.undefined else PathFrom(js, vals, expr[i + 1 + n..], Member(js, cur, js.text(t[..n]))))
  {
    hide IdentLen, DigitsLen, Member;
    var t := expr[i + 1..];
    assert expr[i..][1..] == t;
    assert t[NameLen(t)..] == expr[i + 1 + NameLen(t)..];
  }

  lemma PathItem<V>(js: Js<V>, vals: V, expr: string, i: nat, cur: V)
    requires i < |expr| && expr[i] == '['
    ensures (var t := expr[i + 1..]; var close := CloseSquare(t, 1);
             PathFrom(js, vals, expr[i..], cur) ==
             if close.None? then js.undefined
             else PathFrom(js, vals, expr[i + close.value + 2..], Member(js, cur, Resolve(js, vals, t[..close.value]))))
  {
    hide CloseSquare, Resolve, Member;
    var t := expr[i + 1..];
    assert expr[i..][1..] == t;
    var close := CloseSquare(t, 1);
    if close.Some? {
      assert t[close.value + 1..] == expr[i + close.value + 2..];
    }
  }

  method EvaluatePath<V>(js: Js<V>, vals: V, expr: string) returns (v: V)
    ensures v == ResolvePath(js, vals, expr)
    decreases |expr|, 1
  {
    hide IdentLen, DigitsLen, CloseSquare, Resolve, Member, PathFrom;
    var head := IdentLen(expr);
    if head == 0 {
      return js.undefined;
    }
    var cur := Member(js, vals, js.text(expr[..head]));
    var i := head;
    while i < |expr|
      invariant head <= i <= |expr|
      invariant PathFrom(js, vals, expr[i..], cur) == ResolvePath(js, vals, expr)
    {
      var t := expr[i + 1..];
      PathEnds(js, vals, expr[i..], cur);
      if expr[i] == '.' {
        PathDot(js, vals, expr, i, cur);
        var n := if IdentLen(t) > 0 then IdentLen(t) else DigitsLen(t);
        if n == 0 {
          return js.undefined;
        }
        cur := Member(js, cur, js.text(t[..n]));
        i := i + 1 + n;
      } else if expr[i] == '[' {
        PathItem(js, vals, expr, i, cur);
        var close := ScanSquares(t);
        if close.None? {
          return js.undefined;
        }
        var j := close.value;
        var key := Evaluate(js, vals, t[..j]);
        cur := Member(js, cur, key);
        i := i + 1 + j + 1;
      } else {
        return js.undefined;
      }
    }
    PathEnds(js, vals, expr[i..], cur);
    return cur;
  }
}
