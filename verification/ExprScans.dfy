/** What the evaluator's scans find, said without scanning: by how many brackets are open at a place,
    and by which characters a text consists of. */
module ExprScans {
  import opened Wrappers
  import opened Expr
  import CssScanner

  // ---- Brackets ----------------------------------------------------------------------------

  /** How many more of the opening than of the closing characters there are. */
  function Net(opening: set<char>, closing: set<char>, s: string): int {
    if s == "" then 0
    else
      var c := s[|s| - 1];
      Net(opening, closing, s[..|s| - 1]) + if c in opening then 1 else if c in closing then -1 else 0
  }

  lemma NetNext(opening: set<char>, closing: set<char>, s: string, i: nat)
    requires i < |s|
    ensures Net(opening, closing, s[..i + 1]) ==
      Net(opening, closing, s[..i]) + if s[i] in opening then 1 else if s[i] in closing then -1 else 0
  {
    assert s[..i + 1][..i] == s[..i];
  }

  function Open(s: string): int { Net({'(', '['}, {')', ']'}, s) }

  // ---- The equality operator ---------------------------------------------------------------

  /** An equality operator starts at i: outside brackets, behind something, and not inside another. */
  predicate OperatorAt(e: string, i: nat) {
    && i + 1 < |e| && (e[i] == '=' || e[i] == '!') && e[i + 1] == '='
    && Open(e[..i]) == 0 && CssScanner.Trim(e[..i]) != "" && !(i > 0 && (e[i - 1] == '=' || e[i - 1] == '!'))
  }

  lemma ScanStep(e: string, i: nat)
    requires i < |e|
    ensures EqualityFrom(e[..i], e[i..], Open(e[..i])) ==
      if OperatorAt(e, i) then Some(Equality(i, Op(e[i] == '!', i + 2 < |e| && e[i + 2] == '=')))
      else EqualityFrom(e[..i + 1], e[i + 1..], Open(e[..i + 1]))
  {
    hide CssScanner.Trim, Net;
    NetNext({'(', '['}, {')', ']'}, e, i);
    assert e[..i] + [e[i]] == e[..i + 1] && e[i..][1..] == e[i + 1..];
  }

  lemma ScanEnd(before: string, depth: int)
    ensures EqualityFrom(before, "", depth) == None
  {
  }

  predicate IsOperator(e: string, eq: Equality) {
    && OperatorAt(e, eq.index) && (eq.op.negated <==> e[eq.index] == '!')
    && (eq.op.strict <==> eq.index + 2 < |e| && e[eq.index + 2] == '=')
  }

  ghost predicate NoOperatorIn(e: string, i: nat, k: nat) { forall j: nat :: i <= j < k ==> !OperatorAt(e, j) }

  /** Where the scan stands at i, it finds the first operator from i on. */
  lemma {:induction false} FindsFirstFrom(e: string, i: nat)
    requires i <= |e|
    ensures (var r := EqualityFrom(e[..i], e[i..], Open(e[..i]));
             && (r.None? ==> NoOperatorIn(e, i, |e|))
             && (r.Some? ==> IsOperator(e, r.value) && NoOperatorIn(e, i, r.value.index)))
    decreases |e| - i
  {
    if i == |e| {
      assert e[i..] == "";
      ScanEnd(e[..i], Open(e[..i]));
      hide EqualityFrom, OperatorAt, Net;
    } else {
      ScanStep(e, i);
      hide EqualityFrom, Net;
      if OperatorAt(e, i) {
        hide OperatorAt;
      } else {
        hide OperatorAt, IsOperator;
        FindsFirstFrom(e, i + 1);
      }
    }
  }

  /** The scan finds the first equality operator of the text if there is one, and which one it is. */
  lemma FindsFirst(e: string)
    ensures FindTopLevelEquality(e).None? <==> forall i: nat :: !OperatorAt(e, i)
    ensures FindTopLevelEquality(e).Some? ==>
      && IsOperator(e, FindTopLevelEquality(e).value)
      && forall j: nat :: j < FindTopLevelEquality(e).value.index ==> !OperatorAt(e, j)
  {
    assert e[..0] == "" && e[0..] == e;
    FindsFirstFrom(e, 0);
  }

  // ---- Parentheses and square brackets -----------------------------------------------------

  lemma {:induction false} WrapsFromIff(e: string, i: nat)
    requires i <= |e|
    ensures WrapsFrom(e[i..], Net({'('}, {')'}, e[..i])) <==>
      forall j :: i <= j < |e| - 1 && e[j] == ')' ==> Net({'('}, {')'}, e[..j + 1]) != 0
    decreases |e| - i
  {
    if i < |e| {
      NetNext({'('}, {')'}, e, i);
      assert e[i..][1..] == e[i + 1..];
      WrapsFromIff(e, i + 1);
    }
  }

  /** The outer parentheses wrap the whole text if and only if no ')' before the last character leaves
      as many closed as opened. */
  lemma WrapsIff(e: string)
    ensures ParensWrapWhole(e) <==>
      forall j :: 0 <= j < |e| - 1 && e[j] == ')' ==> Net({'('}, {')'}, e[..j + 1]) != 0
  {
    assert e[..0] == "" && e[0..] == e;
    WrapsFromIff(e, 0);
  }

  predicate ClosesAt(t: string, j: int) {
    0 <= j < |t| && t[j] == ']' && Net({'['}, {']'}, t[..j + 1]) == -1
  }

  ghost predicate NoneClosesIn(t: string, i: int, k: int) { forall j :: i <= j < k ==> !ClosesAt(t, j) }

  lemma CloseStep(t: string, i: nat)
    requires i < |t| && Net({'['}, {']'}, t[..i]) >= 0
    ensures ClosesAt(t, i) ==> CloseSquare(t[i..], Net({'['}, {']'}, t[..i]) + 1) == Some(0)
    ensures !ClosesAt(t, i) ==>
      && Net({'['}, {']'}, t[..i + 1]) >= 0
      && var r := CloseSquare(t[i + 1..], Net({'['}, {']'}, t[..i + 1]) + 1);
         CloseSquare(t[i..], Net({'['}, {']'}, t[..i]) + 1) == if r.Some? then Some(r.value + 1) else None
  {
    NetNext({'['}, {']'}, t, i);
    hide Net;
    assert t[i..][1..] == t[i + 1..];
  }

  lemma CloseEnd(t: string, i: nat)
    requires i == |t|
    ensures NoneClosesIn(t, i, |t|)
    ensures forall depth: nat :: depth > 0 ==> CloseSquare(t[i..], depth) == None
  {
    assert t[i..] == "";
  }

  lemma NoneYet(t: string, i: int)
    ensures NoneClosesIn(t, i, i)
  {
  }

  lemma NoneBefore(t: string, i: int, k: int)
    requires !ClosesAt(t, i) && NoneClosesIn(t, i + 1, k)
    ensures NoneClosesIn(t, i, k)
  {
  }

  lemma {:induction false} ClosesFirstFrom(t: string, i: nat)
    requires i <= |t| && Net({'['}, {']'}, t[..i]) >= 0
    ensures (var r := CloseSquare(t[i..], Net({'['}, {']'}, t[..i]) + 1);
             && (r.None? ==> NoneClosesIn(t, i, |t|))
             && (r.Some? ==> ClosesAt(t, i + r.value) && NoneClosesIn(t, i, i + r.value)))
    decreases |t| - i
  {
    if i == |t| {
      CloseEnd(t, i);
    } else {
      CloseStep(t, i);
      hide CloseSquare, Net, ClosesAt, NoneClosesIn;
      if ClosesAt(t, i) {
        NoneYet(t, i);
      } else {
        ClosesFirstFrom(t, i + 1);
        var r := CloseSquare(t[i + 1..], Net({'['}, {']'}, t[..i + 1]) + 1);
        NoneBefore(t, i, if r.Some? then i + 1 + r.value else |t|);
      }
    }
  }

  /** The bracket opened before t closes at the first ']' that closes more than t opens. */
  lemma ClosesFirst(t: string)
    ensures CloseSquare(t, 1).None? <==> forall j :: !ClosesAt(t, j)
    ensures CloseSquare(t, 1).Some? ==>
      ClosesAt(t, CloseSquare(t, 1).value) && forall j :: 0 <= j < CloseSquare(t, 1).value ==> !ClosesAt(t, j)
  {
    assert t[..0] == "" && t[0..] == t;
    ClosesFirstFrom(t, 0);
  }

  // ---- Lexical pieces ----------------------------------------------------------------------

  predicate Digits(s: string) { s != "" && forall i :: 0 <= i < |s| ==> '0' <= s[i] <= '9' }

  predicate Letter(c: char) { 'a' <= c <= 'z' || 'A' <= c <= 'Z' || c == '_' || c == '$' }

  lemma {:induction false} DigitsPrefix(s: string)
    ensures forall i :: 0 <= i < DigitsLen(s) ==> '0' <= s[i] <= '9'
    ensures DigitsLen(s) < |s| ==> !('0' <= s[DigitsLen(s)] <= '9')
    decreases |s|
  {
    if s != "" && IsDigit(s[0]) {
      DigitsPrefix(s[1..]);
      assert forall i :: 0 < i < DigitsLen(s) ==> s[i] == s[1..][i - 1];
    }
  }

  lemma {:induction false} PartsPrefix(s: string)
    ensures forall i :: 0 <= i < PartsLen(s) ==> Letter(s[i]) || '0' <= s[i] <= '9'
    ensures PartsLen(s) < |s| ==> !(Letter(s[PartsLen(s)]) || '0' <= s[PartsLen(s)] <= '9')
    decreases |s|
  {
    if s != "" {
      if IsIdentPart(s[0]) {
        PartsPrefix(s[1..]);
        assert forall i :: 0 < i < PartsLen(s) ==> s[i] == s[1..][i - 1];
      }
    }
  }

  /** The identifier at the front is the longest: a letter, then letters and digits. */
  lemma IdentIsLongest(s: string)
    ensures (var n := IdentLen(s);
             && (n > 0 <==> s != "" && Letter(s[0]))
             && (forall i :: 0 <= i < n ==> Letter(s[i]) || '0' <= s[i] <= '9')
             && (0 < n < |s| ==> !(Letter(s[n]) || '0' <= s[n] <= '9')))
  {
    if s != "" {
      PartsPrefix(s[1..]);
      assert forall i :: 0 < i < IdentLen(s) ==> s[i] == s[1..][i - 1];
    }
  }

  predicate IsNumeralOf(s: string, sign: string, whole: string, fraction: string) {
    && (sign == "" || sign == "-") && Digits(whole)
    && (fraction == "" || (fraction[0] == '.' && Digits(fraction[1..])))
    && s == sign + whole + fraction
  }

  /** An optional minus sign, digits, and an optional point with more digits. */
  ghost predicate Numeral(s: string) { exists sign, whole, fraction :: IsNumeralOf(s, sign, whole, fraction) }

  lemma {:induction false} DigitsLenOf(whole: string, rest: string)
    requires Digits(whole) && (rest != "" ==> !('0' <= rest[0] <= '9'))
    ensures DigitsLen(whole + rest) == |whole|
    decreases |whole|
  {
    assert (whole + rest)[1..] == whole[1..] + rest;
    if |whole| > 1 {
      DigitsLenOf(whole[1..], rest);
    } else {
      assert whole[1..] + rest == rest;
    }
  }

  lemma NumberSplits(s: string) returns (sign: string, whole: string, fraction: string)
    requires IsNumber(s)
    ensures (sign == "" || sign == "-") && s == sign + whole + fraction
    ensures whole != "" && DigitsLen(whole + fraction) == |whole|
    ensures fraction == "" || (|fraction| > 1 && fraction[0] == '.' && DigitsLen(fraction[1..]) == |fraction| - 1)
  {
    var t;
    sign, t := SignSplits(s);
    whole, fraction := UnsignedSplits(t);
    hide DigitsLen, IsNumber;
    Regroup(sign, whole, fraction);
  }

  lemma Regroup(a: string, b: string, c: string)
    ensures a + (b + c) == a + b + c
  {
  }

  lemma SignSplits(s: string) returns (sign: string, t: string)
    requires IsNumber(s)
    ensures (sign == "" || sign == "-") && s == sign + t && DigitsLen(t) > 0
    ensures DigitsLen(t) < |t| ==>
      t[DigitsLen(t)] == '.' && DigitsLen(t) + 1 < |t| && DigitsLen(t[DigitsLen(t) + 1..]) == |t| - DigitsLen(t) - 1
  {
    hide DigitsLen;
    if s[0] == '-' {
      sign, t := "-", s[1..];
    } else {
      sign, t := "", s;
    }
  }

  lemma UnsignedSplits(t: string) returns (whole: string, fraction: string)
    requires DigitsLen(t) > 0
    requires DigitsLen(t) < |t| ==>
      t[DigitsLen(t)] == '.' && DigitsLen(t) + 1 < |t| && DigitsLen(t[DigitsLen(t) + 1..]) == |t| - DigitsLen(t) - 1
    ensures t == whole + fraction && |whole| == DigitsLen(t)
    ensures fraction == "" || (|fraction| > 1 && fraction[0] == '.' && DigitsLen(fraction[1..]) == |fraction| - 1)
  {
    hide DigitsLen;
    var n := DigitsLen(t);
    whole, fraction := t[..n], t[n..];
    assert n < |t| ==> fraction[1..] == t[n + 1..];
  }

  lemma NumberIsNumeral(s: string)
    requires IsNumber(s)
    ensures Numeral(s)
  {
    var sign, whole, fraction := NumberSplits(s);
    DigitsPrefix(whole + fraction);
    hide DigitsLen, IsNumber;
    assert forall i :: 0 <= i < |whole| ==> (whole + fraction)[i] == whole[i];
    if fraction != "" {
      DigitsPrefix(fraction[1..]);
    }
    assert IsNumeralOf(s, sign, whole, fraction);
  }

  lemma SignedIsNumber(s: string, sign: string, t: string)
    requires (sign == "" || sign == "-") && s == sign + t && DigitsLen(t) > 0 && t[0] != '-'
    requires DigitsLen(t) < |t| ==>
      t[DigitsLen(t)] == '.' && DigitsLen(t) + 1 < |t| && DigitsLen(t[DigitsLen(t) + 1..]) == |t| - DigitsLen(t) - 1
    ensures IsNumber(s)
  {
    hide DigitsLen;
    assert s[|sign|..] == t && (s[0] == '-' <==> sign == "-") && s[0..] == s;
  }

  lemma NumeralIsNumber(s: string, sign: string, whole: string, fraction: string)
    requires IsNumeralOf(s, sign, whole, fraction)
    ensures IsNumber(s)
  {
    var t := whole + fraction;
    DigitsLenOf(whole, fraction);
    hide DigitsLen, IsNumber;
    if fraction != "" {
      assert t[|whole| + 1..] == fraction[1..] && t[|whole|] == '.';
      assert fraction[1..] + "" == fraction[1..];
      DigitsLenOf(fraction[1..], "");
    }
    Regroup(sign, whole, fraction);
    SignedIsNumber(s, sign, t);
  }

  /** Which texts are numbers. */
  lemma NumberIff(s: string)
    ensures IsNumber(s) <==> Numeral(s)
  {
    hide IsNumber, IsNumeralOf;
    if IsNumber(s) {
      NumberIsNumeral(s);
    }
    if sign, whole, fraction :| IsNumeralOf(s, sign, whole, fraction) {
      NumeralIsNumber(s, sign, whole, fraction);
    }
  }
}
