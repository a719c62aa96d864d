/**
 Scanning template text (`design-src/support.js`, lines 203-294): trimming, bracket depth, the
 three scanners and the lexical classes they use.
 */
module TemplateText {

  // ---- white space -----------------------------------------------------------------

  /** What `String.prototype.trim` removes. */
  predicate IsSpace(c: char) {
    || '\t' <= c <= '\r' || c == ' ' || c == '\U{a0}' || c == '\U{1680}' || '\U{2000}' <= c <= '\U{200a}'
    || c == '\U{2028}' || c == '\U{2029}' || c == '\U{202f}' || c == '\U{205f}' || c == '\U{3000}' || c == '\U{feff}'
  }

  predicate Blank(s: string) { forall i :: 0 <= i < |s| ==> IsSpace(s[i]) }

  function TrimStart(s: string): (t: string)
    ensures |t| <= |s|
  {
    if s != "" && IsSpace(s[0]) then TrimStart(s[1..]) else s
  }

  function TrimEnd(s: string): (t: string)
    ensures |t| <= |s|
  {
    if s != "" && IsSpace(s[|s| - 1]) then TrimEnd(s[..|s| - 1]) else s
  }

  function Trim(s: string): (t: string)
    ensures |t| <= |s|
  {
    TrimEnd(TrimStart(s))
  }

  /** Neither end is white space. */
  predicate Solid(s: string) { s != "" && !IsSpace(s[0]) && !IsSpace(s[|s| - 1]) }

  lemma {:induction false} TrimStartPadded(before: string, t: string)
    requires Blank(before) && t != "" && !IsSpace(t[0])
    ensures TrimStart(before + t) == t
  {
    if before == "" {
      assert before + t == t;
    } else {
      assert (before + t)[1..] == before[1..] + t;
      TrimStartPadded(before[1..], t);
    }
  }

  lemma {:induction false} TrimEndPadded(t: string, after: string)
    requires Blank(after) && t != "" && !IsSpace(t[|t| - 1])
    ensures TrimEnd(t + after) == t
  {
    if after == "" {
      assert t + after == t;
    } else {
      var n := |t + after|;
      assert (t + after)[..n - 1] == t + after[..|after| - 1];
      TrimEndPadded(t, after[..|after| - 1]);
    }
  }

  lemma TrimPadded(before: string, t: string, after: string)
    requires Blank(before) && Solid(t) && Blank(after)
    ensures Trim(before + t + after) == t
  {
    assert before + t + after == before + (t + after);
    TrimStartPadded(before, t + after);
    TrimEndPadded(t, after);
  }

  // ---- bracket depth ------------------------------------------------------------------

  /** Which brackets a scanner counts. */
  datatype Kind = Round | Square | Both

  function Weight(k: Kind, c: char): int {
    if (c == '(' && k != Square) || (c == '[' && k != Round) then 1
    else if (c == ')' && k != Square) || (c == ']' && k != Round) then -1
    else 0
  }

  function Depth(k: Kind, s: string): int {
    if s == "" then 0 else Depth(k, s[..|s| - 1]) + Weight(k, s[|s| - 1])
  }

  lemma {:induction false} DepthConcat(k: Kind, a: string, b: string)
    ensures Depth(k, a + b) == Depth(k, a) + Depth(k, b)
  {
    if b == "" {
      assert a + b == a;
    } else {
      var n := |a + b|;
      assert (a + b)[..n - 1] == a + b[..|b| - 1];
      DepthConcat(k, a, b[..|b| - 1]);
    }
  }

  predicate Balanced(k: Kind, s: string) {
    Depth(k, s) == 0 && forall n :: 0 <= n <= |s| ==> Depth(k, s[..n]) >= 0
  }

  predicate NoBrackets(s: string) { forall i :: 0 <= i < |s| ==> Weight(Both, s[i]) == 0 }

  lemma {:induction false} FlatDepth(k: Kind, s: string)
    requires NoBrackets(s)
    ensures Depth(k, s) == 0
  {
    if s != "" { FlatDepth(k, s[..|s| - 1]); }
  }

  lemma FlatBalanced(k: Kind, s: string)
    requires NoBrackets(s)
    ensures Balanced(k, s)
  {
    forall n | 0 <= n <= |s| ensures Depth(k, s[..n]) >= 0 {
      FlatDepth(k, s[..n]);
    }
    FlatDepth(k, s);
  }

  lemma BalancedConcat(k: Kind, a: string, b: string)
    requires Balanced(k, a) && Balanced(k, b)
    ensures Balanced(k, a + b)
  {
    forall n | 0 <= n <= |a + b| ensures Depth(k, (a + b)[..n]) >= 0 {
      if n <= |a| {
        assert (a + b)[..n] == a[..n];
      } else {
        assert (a + b)[..n] == a + b[..n - |a|];
        DepthConcat(k, a, b[..n - |a|]);
      }
    }
    DepthConcat(k, a, b);
  }

  /** Depth inside a bracketed text. */
  lemma WrapDepth(k: Kind, open: char, t: string, close: char, n: nat)
    requires n <= |t|
    ensures Depth(k, ([open] + t + [close])[..n + 1]) == Weight(k, open) + Depth(k, t[..n])
    ensures Depth(k, [open] + t + [close]) == Weight(k, open) + Depth(k, t) + Weight(k, close)
  {
    assert ([open] + t + [close])[..n + 1] == [open] + t[..n];
    DepthConcat(k, [open], t[..n]);
    DepthConcat(k, [open], t);
    DepthConcat(k, [open] + t, [close]);
    assert [open][..0] == "" && [close][..0] == "";
    assert Depth(k, [open]) == Weight(k, open) && Depth(k, [close]) == Weight(k, close);
  }

  lemma WrapBalanced(k: Kind, open: char, t: string, close: char)
    requires (open == '(' && close == ')') || (open == '[' && close == ']')
    requires Balanced(k, t)
    ensures Balanced(k, [open] + t + [close])
  {
    var w := [open] + t + [close];
    WrapDepth(k, open, t, close, |t|);
    forall n | 0 <= n <= |w| ensures Depth(k, w[..n]) >= 0 {
      if 1 <= n <= |t| + 1 {
        WrapDepth(k, open, t, close, n - 1);
      } else {
        assert n == 0 || w[..n] == w;
      }
    }
  }

  // ---- parensWrapWhole ------------------------------------------------------------------

  /** The opening parenthesis is not closed before the last character. */
  predicate WrapWhole(expr: string) {
    forall i :: 0 <= i < |expr| - 1 && expr[i] == ')' ==> Depth(Round, expr[..i + 1]) != 0
  }

  method ParensWrapWhole(expr: string) returns (wraps: bool)
    ensures wraps == WrapWhole(expr)
  {
    var depth := 0;
    var i := 0;
    while i < |expr| - 1
      invariant i == 0 || i <= |expr| - 1
      invariant i <= |expr| && depth == Depth(Round, expr[..i])
      invariant forall j :: 0 <= j < i && expr[j] == ')' ==> Depth(Round, expr[..j + 1]) != 0
    {
      assert expr[..i + 1][..i] == expr[..i];
      if expr[i] == '(' {
        depth := depth + 1;
      } else if expr[i] == ')' {
        depth := depth - 1;
        if depth == 0 { return false; }
      }
      i := i + 1;
    }
    return true;
  }

  // ---- findTopLevelEquality ----------------------------------------------------------------

  datatype Op = StrictEq | StrictNe | LooseEq | LooseNe {
    function Text(): string {
      match this
      case StrictEq => "==="
      case StrictNe => "!=="
      case LooseEq => "=="
      case LooseNe => "!="
    }
  }

  predicate Marks(c: char) { c == '=' || c == '!' }

  /** The two characters an equality operator starts with. */
  predicate Pair(s: string, i: int) { 0 <= i < |s| - 1 && Marks(s[i]) && s[i + 1] == '=' }

  /** A top-level equality operator starts at `i`. */
  predicate OperatorAt(expr: string, i: int) {
    && Pair(expr, i)
    && Depth(Both, expr[..i]) == 0
    && !(i > 0 && Marks(expr[i - 1]))
    && Trim(expr[..i]) != ""
  }

  function OpAt(expr: string, i: nat): (op: Op)
    requires Pair(expr, i)
    ensures i + |op.Text()| <= |expr|
  {
    if i + 2 < |expr| && expr[i + 2] == '=' then (if expr[i] == '=' then StrictEq else StrictNe)
    else (if expr[i] == '=' then LooseEq else LooseNe)
  }

  /** The first operator at or after `i`, or the length of the text. */
  function FirstOperator(expr: string, i: nat): (at: nat)
    requires i <= |expr|
    ensures i <= at <= |expr|
    ensures at < |expr| ==> OperatorAt(expr, at)
    ensures forall k :: i <= k < at ==> !OperatorAt(expr, k)
    decreases |expr| - i
  {
    if i == |expr| || OperatorAt(expr, i) then i else FirstOperator(expr, i + 1)
  }

  method FindTopLevelEquality(expr: string) returns (found: bool, index: nat, op: Op)
    ensures found <==> FirstOperator(expr, 0) < |expr|
    ensures found ==> index == FirstOperator(expr, 0) && op == OpAt(expr, index)
  {
    index, op := 0, LooseEq;
    var depth := 0;
    var i := 0;
    while i < |expr|
      invariant 0 <= i <= |expr|
      invariant depth == Depth(Both, expr[..i])
      invariant FirstOperator(expr, i) == FirstOperator(expr, 0)
    {
      assert expr[..i + 1][..i] == expr[..i];
      var at := i;
      var c := expr[i];
      i := i + 1;
      if c == '[' || c == '(' {
        depth := depth + 1;
      } else if c == ']' || c == ')' {
        depth := depth - 1;
      } else if depth == 0 && (c == '=' || c == '!') && i < |expr| && expr[i] == '=' {
        if at > 0 && (expr[at - 1] == '=' || expr[at - 1] == '!') { continue; }
        if Trim(expr[..at]) == "" { continue; }
        return true, at, OpAt(expr, at);
      }
    }
    return false, index, op;
  }

  /** No operator starts at depth zero. */
  ghost predicate Quiet(s: string) { forall i :: Pair(s, i) ==> Depth(Both, s[..i]) != 0 }

  lemma QuietConcat(a: string, b: string)
    requires Quiet(a) && Quiet(b) && Depth(Both, a) == 0
    requires a == "" || b == "" || !Marks(a[|a| - 1]) || b[0] != '='
    ensures Quiet(a + b)
  {
    var s := a + b;
    forall i | Pair(s, i) ensures Depth(Both, s[..i]) != 0 {
      if i < |a| - 1 {
        assert Pair(a, i) && s[..i] == a[..i];
      } else if i >= |a| {
        assert Pair(b, i - |a|) && s[..i] == a + b[..i - |a|];
        DepthConcat(Both, a, b[..i - |a|]);
      }
    }
  }

  lemma QuietWrap(open: char, t: string, close: char)
    requires (open == '(' && close == ')') || (open == '[' && close == ']')
    requires Balanced(Both, t)
    ensures Quiet([open] + t + [close])
  {
    var s := [open] + t + [close];
    forall i | Pair(s, i) ensures Depth(Both, s[..i]) != 0 {
      WrapDepth(Both, open, t, close, i - 1);
    }
  }

  lemma NoOperator(s: string)
    requires Quiet(s)
    ensures FirstOperator(s, 0) == |s|
  {
  }

  // ---- matching a square bracket ---------------------------------------------------------------

  /** The `]` that closes a `[` just before `start`, searched from `j`, or the length of the text. */
  function CloseFrom(expr: string, start: nat, j: nat): (at: nat)
    requires start <= j <= |expr|
    ensures j <= at <= |expr|
    decreases |expr| - j
  {
    if j == |expr| || (expr[j] == ']' && Depth(Square, expr[start..j]) == 0) then j
    else CloseFrom(expr, start, j + 1)
  }

  lemma {:induction false} ClosesAfter(pre: string, t: string, post: string, n: nat)
    requires Balanced(Square, t) && n <= |t|
    ensures CloseFrom(pre + t + "]" + post, |pre|, |pre| + n) == |pre| + |t|
    decreases |t| - n
  {
    var expr := pre + t + "]" + post;
    assert expr[|pre|..|pre| + n] == t[..n];
    if n < |t| {
      assert t[..n + 1][..n] == t[..n];
      assert Depth(Square, t[..n + 1]) >= 0;
      ClosesAfter(pre, t, post, n + 1);
    } else {
      assert t[..n] == t;
    }
  }

  // ---- lexical classes --------------------------------------------------------------------------

  predicate IdentStart(c: char) { 'A' <= c <= 'Z' || 'a' <= c <= 'z' || c == '_' || c == '$' }

  predicate IdentPart(c: char) { IdentStart(c) || IsDigit(c) }

  predicate IsDigit(c: char) { '0' <= c <= '9' }

  function PartRun(s: string): (n: nat)
    ensures n <= |s|
  {
    if s != "" && IdentPart(s[0]) then 1 + PartRun(s[1..]) else 0
  }

  /** Length of the longest identifier at the front. */
  function IdentRun(s: string): (n: nat)
    ensures n <= |s|
  {
    if s != "" && IdentStart(s[0]) then PartRun(s) else 0
  }

  function DigitRun(s: string): (n: nat)
    ensures n <= |s|
  {
    if s != "" && IsDigit(s[0]) then 1 + DigitRun(s[1..]) else 0
  }

  predicate IsIdent(s: string) {
    s != "" && IdentStart(s[0]) && forall i :: 0 <= i < |s| ==> IdentPart(s[i])
  }

  predicate IsDigits(s: string) { s != "" && forall i :: 0 <= i < |s| ==> IsDigit(s[i]) }

  /** An optional minus sign, digits, and an optional fraction; nothing else. */
  predicate IsNumber(s: string) {
    var t := if s != "" && s[0] == '-' then s[1..] else s;
    var n := DigitRun(t);
    n > 0 && (n == |t| || (t[n] == '.' && n + 1 < |t| && DigitRun(t[n + 1..]) == |t| - n - 1))
  }

  lemma {:induction false} PartRunStops(name: string, rest: string)
    requires forall i :: 0 <= i < |name| ==> IdentPart(name[i])
    requires rest == "" || !IdentPart(rest[0])
    ensures PartRun(name + rest) == |name|
  {
    if name == "" {
      assert name + rest == rest;
    } else {
      assert (name + rest)[1..] == name[1..] + rest;
      PartRunStops(name[1..], rest);
    }
  }

  lemma {:induction false} DigitRunStops(name: string, rest: string)
    requires forall i :: 0 <= i < |name| ==> IsDigit(name[i])
    requires rest == "" || !IsDigit(rest[0])
    ensures DigitRun(name + rest) == |name|
  {
    if name == "" {
      assert name + rest == rest;
    } else {
      assert (name + rest)[1..] == name[1..] + rest;
      DigitRunStops(name[1..], rest);
    }
  }

  lemma {:induction false} DigitRunIsDigits(s: string)
    ensures forall i :: 0 <= i < DigitRun(s) ==> IsDigit(s[i])
  {
    if s != "" && IsDigit(s[0]) { DigitRunIsDigits(s[1..]); }
  }

  /** Numerals consist of digits, `-` and `.`. */
  lemma NumberChars(s: string)
    requires IsNumber(s)
    ensures forall i :: 0 <= i < |s| ==> IsDigit(s[i]) || s[i] == '-' || s[i] == '.'
    ensures s != "" && IsDigit(s[|s| - 1]) && (IsDigit(s[0]) || s[0] == '-')
  {
    var t := if s != "" && s[0] == '-' then s[1..] else s;
    var n := DigitRun(t);
    DigitRunIsDigits(t);
    if n < |t| { DigitRunIsDigits(t[n + 1..]); }
  }

  /** A numeral is an optional minus sign, digits, and an optional point with digits after it. */
  lemma NumberIff(s: string)
    ensures IsNumber(s) <==> exists sign, whole, frac ::
      s == sign + whole + frac && (sign == "" || sign == "-") && IsDigits(whole)
      && (frac == "" || (frac[0] == '.' && IsDigits(frac[1..])))
  {
    if IsNumber(s) {
      NumberParts(s);
    }
    forall sign, whole, frac |
      s == sign + whole + frac && (sign == "" || sign == "-") && IsDigits(whole)
      && (frac == "" || (frac[0] == '.' && IsDigits(frac[1..])))
      ensures IsNumber(s)
    {
      PartsMakeNumber(sign, whole, frac);
    }
  }

  lemma NumberParts(s: string)
    requires IsNumber(s)
    ensures exists sign, whole, frac ::
      s == sign + whole + frac && (sign == "" || sign == "-") && IsDigits(whole)
      && (frac == "" || (frac[0] == '.' && IsDigits(frac[1..])))
  {
    var sign := if s[0] == '-' then "-" else "";
    var t := s[|sign|..];
    var n := DigitRun(t);
    DigitRunIsDigits(t);
    var whole, frac := t[..n], t[n..];
    if frac != "" {
      DigitRunIsDigits(frac[1..]);
      assert frac[1..] == t[n + 1..];
    }
    assert s == sign + whole + frac;
  }

  lemma PartsMakeNumber(sign: string, whole: string, frac: string)
    requires (sign == "" || sign == "-") && IsDigits(whole) && (frac == "" || (frac[0] == '.' && IsDigits(frac[1..])))
    ensures IsNumber(sign + whole + frac)
  {
    var s := sign + whole + frac;
    var t := if s != "" && s[0] == '-' then s[1..] else s;
    assert t == whole + frac;
    DigitRunStops(whole, frac);
    if frac != "" {
      DigitRunStops(frac[1..], "");
      assert frac[1..] + "" == frac[1..];
      assert t[|whole| + 1..] == frac[1..];
    }
  }

  // ---- names -------------------------------------------------------------------------------

  /**
   The name at the front of a text is its longest prefix of letters, digits, `_` and `$`, unless it begins with a
   digit.
   */
  lemma {:induction false} NameIsLongest(s: string, i: nat)
    requires i < |s|
    ensures i < PartRun(s) ==>
      'a' <= s[i] <= 'z' || 'A' <= s[i] <= 'Z' || '0' <= s[i] <= '9' || s[i] == '_' || s[i] == '$'
    ensures i == PartRun(s) ==>
      !('a' <= s[i] <= 'z' || 'A' <= s[i] <= 'Z' || '0' <= s[i] <= '9' || s[i] == '_' || s[i] == '$')
    ensures IdentRun(s) == if IdentPart(s[0]) && !('0' <= s[0] <= '9') then PartRun(s) else 0
  {
    if IdentPart(s[0]) && i > 0 { NameIsLongest(s[1..], i - 1); }
  }

  const SPACES := "\t\n\U{b}\U{c}\r \U{a0}\U{1680}" + EM_SPACES + "\U{2028}\U{2029}\U{202f}\U{205f}\U{3000}\U{feff}"
  const EM_SPACES :=
    "\U{2000}\U{2001}\U{2002}\U{2003}\U{2004}\U{2005}\U{2006}\U{2007}\U{2008}\U{2009}\U{200a}"

  /** White space and line terminators go from both ends. */
  lemma SpacesAreTrimmed(c: char, t: string)
    requires c in SPACES && Solid(t)
    ensures Trim([c] + t + [c]) == t
  {
    TrimPadded([c], t, [c]);
  }
}
