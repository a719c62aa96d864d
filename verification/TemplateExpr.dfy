/**
 The template expression evaluator (`resolve` and `resolvePath` in `design-src/support.js`).

 JavaScript's values and primitive operations - property access, the two equalities, truthiness,
 `Number(...)` - are parameters, so what is proved holds whatever coercions they perform.
 */
module TemplateExpr {
  import opened TemplateText

  /** The operations of the host language on its values. */
  datatype Js<!V> = Js(
    get: (V, V) -> V,
    nullish: V -> bool,
    truthy: V -> bool,
    strictEq: (V, V) -> bool,
    looseEq: (V, V) -> bool,
    truth: bool -> V,
    number: string -> V,
    text: string -> V,
    nil: V,
    undef: V)
  {
    function Compare(op: Op, l: V, r: V): V {
      match op
      case StrictEq => truth(strictEq(l, r))
      case StrictNe => truth(!strictEq(l, r))
      case LooseEq => truth(looseEq(l, r))
      case LooseNe => truth(!looseEq(l, r))
    }

    /** `cur == null ? undefined : cur[key]` */
    function Member(cur: V, key: V): V { if nullish(cur) then undef else get(cur, key) }

    function Word(word: string): V {
      if word == "true" then truth(true) else if word == "false" then truth(false)
      else if word == "null" then nil else undef
    }
  }

  predicate IsKeyword(s: string) { s == "true" || s == "false" || s == "null" || s == "undefined" }

  predicate IsQuote(c: char) { c == '"' || c == '\'' }

  // ---- the evaluator on text ---------------------------------------------------------------

  function Resolve<V>(js: Js<V>, vals: V, src: string): V
    decreases |src|, 2, 0
  {
    var expr := Trim(src);
    if expr == "" then js.undef else
    if |expr| >= 2 && expr[0] == '(' && expr[|expr| - 1] == ')' && WrapWhole(expr) then
      Resolve(js, vals, expr[1..|expr| - 1]) else
    var at := FirstOperator(expr, 0);
    if at < |expr| then
      var op := OpAt(expr, at);
      js.Compare(op, Resolve(js, vals, expr[..at]), Resolve(js, vals, expr[at + |op.Text()|..])) else
    if expr[0] == '!' then js.truth(!js.truthy(Resolve(js, vals, expr[1..]))) else
    if IsKeyword(expr) then js.Word(expr) else
    if IsNumber(expr) then js.number(expr) else
    if |expr| >= 2 && IsQuote(expr[0]) && expr[|expr| - 1] == expr[0] then js.text(expr[1..|expr| - 1]) else
    ResolvePath(js, vals, expr)
  }

  function ResolvePath<V>(js: Js<V>, vals: V, expr: string): V
    decreases |expr|, 1, 0
  {
    var n := IdentRun(expr);
    if n == 0 then js.undef else Walk(js, vals, expr, n, js.Member(vals, js.text(expr[..n])))
  }

  /** The rest of a path from `i`, with `cur` the value reached. */
  function Walk<V>(js: Js<V>, vals: V, expr: string, i: nat, cur: V): V
    requires i <= |expr|
    decreases |expr|, 0, |expr| - i
  {
    if i == |expr| then cur
    else if expr[i] == '.' then
      var n := StepRun(expr[i + 1..]);
      if n == 0 then js.undef else Walk(js, vals, expr, i + 1 + n, js.Member(cur, js.text(expr[i + 1..][..n])))
    else if expr[i] == '[' then
      var j := CloseFrom(expr, i + 1, i + 1);
      if j == |expr| then js.undef else Walk(js, vals, expr, j + 1, js.Member(cur, Resolve(js, vals, expr[i + 1..j])))
    else js.undef
  }

  /** What may follow a dot: an identifier, or else digits. */
  function StepRun(s: string): (n: nat)
    ensures n <= |s|
  {
    if IdentRun(s) > 0 then IdentRun(s) else DigitRun(s)
  }

  // ---- the evaluator as the source runs it ---------------------------------------------------

  method Evaluate<V>(js: Js<V>, vals: V, src: string) returns (v: V)
    ensures v == Resolve(js, vals, src)
    decreases |src|, 2, 0
  {
    hide Trim, WrapWhole, FirstOperator, OpAt, IsKeyword, IsNumber, IsQuote, ResolvePath;
    var expr := Trim(src);
    if expr == "" { return js.undef; }
    if |expr| >= 2 && expr[0] == '(' && expr[|expr| - 1] == ')' {
      var wraps := ParensWrapWhole(expr);
      if wraps {
        v := Evaluate(js, vals, expr[1..|expr| - 1]);
        return;
      }
    }
    var found, index, op := FindTopLevelEquality(expr);
    if found {
      var lv := Evaluate(js, vals, expr[..index]);
      var rv := Evaluate(js, vals, expr[index + |op.Text()|..]);
      return js.Compare(op, lv, rv);
    }
    if expr[0] == '!' {
      var operand := Evaluate(js, vals, expr[1..]);
      return js.truth(!js.truthy(operand));
    }
    if IsKeyword(expr) { return js.Word(expr); }
    if IsNumber(expr) { return js.number(expr); }
    if |expr| >= 2 && IsQuote(expr[0]) && expr[|expr| - 1] == expr[0] { return js.text(expr[1..|expr| - 1]); }
    v := EvaluatePath(js, vals, expr);
  }

  method EvaluatePath<V>(js: Js<V>, vals: V, expr: string) returns (cur: V)
    ensures cur == ResolvePath(js, vals, expr)
    decreases |expr|, 1, 0
  {
    var i := IdentRun(expr);
    if i == 0 { return js.undef; }
    cur := js.Member(vals, js.text(expr[..i]));
    while i < |expr|
      invariant i <= |expr|
      invariant Walk(js, vals, expr, i, cur) == ResolvePath(js, vals, expr)
    {
      if expr[i] == '.' {
        var n := StepRun(expr[i + 1..]);
        if n == 0 { return js.undef; }
        cur := js.Member(cur, js.text(expr[i + 1..][..n]));
        i := i + 1 + n;
      } else if expr[i] == '[' {
        var j := MatchBracket(expr, i);
        if j == |expr| { return js.undef; }
        var key := Evaluate(js, vals, expr[i + 1..j]);
        cur := js.Member(cur, key);
        i := j + 1;
      } else {
        return js.undef;
      }
    }
  }

  method MatchBracket(expr: string, i: nat) returns (j: nat)
    requires i < |expr|
    ensures j == CloseFrom(expr, i + 1, i + 1)
  {
    var depth := 1;
    j := i + 1;
    while j < |expr| && depth > 0
      invariant i + 1 <= j <= |expr| && depth > 0
      invariant depth == 1 + Depth(Square, expr[i + 1..j])
      invariant CloseFrom(expr, i + 1, j) == CloseFrom(expr, i + 1, i + 1)
    {
      assert expr[i + 1..j + 1][..j - i - 1] == expr[i + 1..j];
      if expr[j] == '[' {
        depth := depth + 1;
      } else if expr[j] == ']' {
        depth := depth - 1;
        if depth == 0 { break; }
      }
      j := j + 1;
    }
  }

  // ---- expression trees -------------------------------------------------------------------------

  /** An expression as written, with the white space it is written with. */
  datatype Expr =
    | Keyword(word: string)
    | Number(numeral: string)
    | Quoted(quote: char, body: string)
    | Path(head: string, steps: Steps)
    | Not(gap: string, operand: Expr)
    | Group(before: string, inner: Expr, after: string)
    | Compare(left: Expr, gapL: string, op: Op, gapR: string, right: Expr)

  datatype Steps =
    | End
    | Dot(name: string, rest: Steps)
    | Key(before: string, key: Expr, after: string, rest: Steps)

  function Print(e: Expr): string {
    match e
    case Keyword(word) => word
    case Number(numeral) => numeral
    case Quoted(quote, body) => [quote] + body + [quote]
    case Path(head, steps) => head + PrintSteps(steps)
    case Not(gap, operand) => "!" + (gap + Print(operand))
    case Group(before, inner, after) => "(" + (before + Print(inner) + after) + ")"
    case Compare(left, gapL, op, gapR, right) => Print(left) + gapL + op.Text() + (gapR + Print(right))
  }

  function PrintSteps(s: Steps): string {
    match s
    case End => ""
    case Dot(name, rest) => "." + name + PrintSteps(rest)
    case Key(before, key, after, rest) => "[" + (before + Print(key) + after) + "]" + PrintSteps(rest)
  }

  /** Binds tighter than an equality: may stand left of one, or under `!`. */
  predicate Tight(e: Expr) { !e.Compare? }

  /**
   Trees that can be written: literals free of brackets and of equality operators, bare heads that are not
   keywords.
   */
  predicate Writable(e: Expr) {
    match e
    case Keyword(word) => IsKeyword(word)
    case Number(numeral) => IsNumber(numeral)
    case Quoted(quote, body) => IsQuote(quote) && NoBrackets(body) && forall i :: 0 <= i < |body| ==> !Pair(body, i)
    case Path(head, steps) => IsIdent(head) && (steps.End? ==> !IsKeyword(head)) && WritableSteps(steps)
    case Not(gap, operand) => Blank(gap) && Tight(operand) && Writable(operand)
    case Group(before, inner, after) => Blank(before) && Writable(inner) && Blank(after)
    case Compare(left, gapL, _, gapR, right) =>
      Tight(left) && Writable(left) && Blank(gapL) && Blank(gapR) && Writable(right)
  }

  predicate WritableSteps(s: Steps) {
    match s
    case End => true
    case Dot(name, rest) => (IsIdent(name) || IsDigits(name)) && WritableSteps(rest)
    case Key(before, key, after, rest) => Blank(before) && Writable(key) && Blank(after) && WritableSteps(rest)
  }

  /** What a tree means, in terms of the host's primitive operations alone. */
  function Meaning<V>(js: Js<V>, vals: V, e: Expr): V {
    match e
    case Keyword(word) =>
      if word == "true" then js.truth(true)
      else if word == "false" then js.truth(false)
      else if word == "null" then js.nil
      else js.undef
    case Number(numeral) => js.number(numeral)
    case Quoted(_, body) => js.text(body)
    case Path(head, steps) =>
      MeaningSteps(js, vals, steps, if js.nullish(vals) then js.undef else js.get(vals, js.text(head)))
    case Not(_, operand) => js.truth(!js.truthy(Meaning(js, vals, operand)))
    case Group(_, inner, _) => Meaning(js, vals, inner)
    case Compare(left, _, op, _, right) =>
      var l, r := Meaning(js, vals, left), Meaning(js, vals, right);
      match op
      case StrictEq => js.truth(js.strictEq(l, r))
      case StrictNe => js.truth(!js.strictEq(l, r))
      case LooseEq => js.truth(js.looseEq(l, r))
      case LooseNe => js.truth(!js.looseEq(l, r))
  }

  function MeaningSteps<V>(js: Js<V>, vals: V, s: Steps, cur: V): V {
    match s
    case End => cur
    case Dot(name, rest) =>
      MeaningSteps(js, vals, rest, if js.nullish(cur) then js.undef else js.get(cur, js.text(name)))
    case Key(_, key, _, rest) =>
      MeaningSteps(js, vals, rest, if js.nullish(cur) then js.undef else js.get(cur, Meaning(js, vals, key)))
  }

  // ---- the shape of printed text --------------------------------------------------------------------

  /** Neither white space nor a character of an operator. */
  predicate Plain(c: char) { !IsSpace(c) && !Marks(c) }

  /** A run of plain characters that are not brackets: keywords, numerals, names. */
  predicate Lexeme(t: string) { t != "" && forall i :: 0 <= i < |t| ==> Plain(t[i]) && Weight(Both, t[i]) == 0 }

  lemma WordIsLexeme(t: string)
    requires IsKeyword(t) || IsIdent(t) || IsDigits(t)
    ensures Lexeme(t) && Lexeme("." + t)
  {
  }

  lemma NumberIsLexeme(t: string)
    requires IsNumber(t)
    ensures Lexeme(t)
  {
    hide IsNumber;
    NumberChars(t);
  }

  lemma LexemeShape(t: string, k: Kind)
    requires Lexeme(t)
    ensures Solid(t) && t[0] != '=' && t[0] != '(' && Plain(t[|t| - 1])
    ensures Balanced(k, t) && Quiet(t)
  {
    FlatBalanced(k, t);
  }

  lemma QuotedShape(quote: char, body: string, k: Kind)
    requires IsQuote(quote) && NoBrackets(body) && forall i :: 0 <= i < |body| ==> !Pair(body, i)
    ensures var t := [quote] + body + [quote];
      && Solid(t) && t[0] != '=' && t[0] != '(' && Plain(t[|t| - 1])
      && Balanced(k, t) && Quiet(t)
  {
    var t := [quote] + body + [quote];
    FlatBalanced(k, t);
    forall i ensures !Pair(t, i) {
      assert 1 <= i <= |body| ==> !Pair(body, i - 1);
    }
  }

  lemma {:induction false} PrintEnds(e: Expr)
    requires Writable(e)
    ensures var t := Print(e); Solid(t) && t[0] != '=' && Plain(t[|t| - 1])
    ensures var t := Print(e); Tight(e) && t[0] == '(' ==> e.Group?
    decreases e
  {
    hide IsSpace, IsKeyword, IsNumber, IsIdent, IsQuote, NoBrackets, Pair, Lexeme, Quiet, Balanced, Blank;
    match e
    case Keyword(word) =>
      WordIsLexeme(word);
      LexemeShape(word, Both);
    case Number(numeral) =>
      NumberIsLexeme(numeral);
      LexemeShape(numeral, Both);
    case Quoted(quote, body) => QuotedShape(quote, body, Both);
    case Path(head, steps) =>
      WordIsLexeme(head);
      LexemeShape(head, Both);
      StepsEnd(steps);
    case Not(gap, operand) =>
      PlainMarks();
      PrintEnds(operand);
    case Group(_, _, _) => PlainMarks();
    case Compare(left, _, _, _, right) =>
      PrintEnds(left);
      PrintEnds(right);
  }

  lemma PlainMarks()
    ensures !IsSpace('!') && !IsSpace('(') && !IsSpace('[') && !IsSpace('.') && Plain(')') && Plain(']')
  {
  }

  lemma {:induction false} StepsEnd(s: Steps)
    requires WritableSteps(s)
    ensures var t := PrintSteps(s); t != "" ==> (t[0] == '.' || t[0] == '[') && Plain(t[|t| - 1])
    ensures s.End? <==> PrintSteps(s) == ""
    decreases s
  {
    hide IsSpace, IsIdent, IsDigits, Lexeme, Quiet, Balanced, Blank, Plain;
    match s
    case End =>
    case Dot(name, rest) =>
      WordIsLexeme(name);
      LexemeShape(name, Both);
      StepsEnd(rest);
    case Key(_, _, _, rest) =>
      PlainMarks();
      StepsEnd(rest);
  }

  lemma BlankShape(s: string, k: Kind)
    requires Blank(s)
    ensures Balanced(k, s) && Quiet(s)
  {
    FlatBalanced(k, s);
  }

  lemma OpBalanced(op: Op, k: Kind)
    ensures Balanced(k, op.Text()) && Balanced(k, "!")
  {
    FlatBalanced(k, op.Text());
    FlatBalanced(k, "!");
  }

  lemma {:induction false} PrintBalanced(e: Expr, k: Kind)
    requires Writable(e)
    ensures Balanced(k, Print(e))
    decreases e, 0
  {
    hide IsKeyword, IsNumber, IsIdent, IsQuote, NoBrackets, Pair, Lexeme, Quiet, Balanced, Blank, Solid, Plain;
    match e
    case Keyword(word) =>
      WordIsLexeme(word);
      LexemeShape(word, k);
    case Number(numeral) =>
      NumberIsLexeme(numeral);
      LexemeShape(numeral, k);
    case Quoted(quote, body) => QuotedShape(quote, body, k);
    case Path(head, steps) =>
      WordIsLexeme(head);
      LexemeShape(head, k);
      StepsBalanced(steps, k);
      BalancedConcat(k, head, PrintSteps(steps));
    case Not(gap, operand) =>
      OpBalanced(LooseEq, k);
      BlankShape(gap, k);
      PrintBalanced(operand, k);
      BalancedConcat(k, gap, Print(operand));
      BalancedConcat(k, "!", gap + Print(operand));
    case Group(before, inner, after) =>
      PaddedBalanced(before, inner, after, k);
      WrapBalanced(k, '(', before + Print(inner) + after, ')');
    case Compare(left, gapL, op, gapR, right) =>
      PrintBalanced(left, k);
      BlankShape(gapL, k);
      OpBalanced(op, k);
      BlankShape(gapR, k);
      PrintBalanced(right, k);
      BalancedConcat(k, gapR, Print(right));
      BalancedConcat(k, Print(left), gapL);
      BalancedConcat(k, Print(left) + gapL, op.Text());
      BalancedConcat(k, Print(left) + gapL + op.Text(), gapR + Print(right));
  }

  lemma {:induction false} PaddedBalanced(before: string, e: Expr, after: string, k: Kind)
    requires Blank(before) && Writable(e) && Blank(after)
    ensures Balanced(k, before + Print(e) + after)
    decreases e, 1
  {
    hide Blank, Balanced, Writable, Quiet;
    BlankShape(before, k);
    BlankShape(after, k);
    PrintBalanced(e, k);
    BalancedConcat(k, before, Print(e));
    BalancedConcat(k, before + Print(e), after);
  }

  lemma {:induction false} StepsBalanced(s: Steps, k: Kind)
    requires WritableSteps(s)
    ensures Balanced(k, PrintSteps(s))
    decreases s, 0
  {
    hide IsIdent, IsDigits, NoBrackets, Lexeme, Quiet, Balanced, Blank, Solid, Plain;
    match s
    case End => FlatBalanced(k, "");
    case Dot(name, rest) =>
      WordIsLexeme(name);
      LexemeShape("." + name, k);
      StepsBalanced(rest, k);
      BalancedConcat(k, "." + name, PrintSteps(rest));
    case Key(before, key, after, rest) =>
      PaddedBalanced(before, key, after, k);
      WrapBalanced(k, '[', before + Print(key) + after, ']');
      StepsBalanced(rest, k);
      BalancedConcat(k, "[" + (before + Print(key) + after) + "]", PrintSteps(rest));
  }

  /** A tight expression shows no top-level operator. */
  lemma {:induction false} TightIsQuiet(e: Expr)
    requires Writable(e) && Tight(e)
    ensures Quiet(Print(e))
    decreases e
  {
    hide IsSpace, IsKeyword, IsNumber, IsIdent, IsQuote, NoBrackets, Pair, Lexeme, Quiet, Blank;
    match e
    case Keyword(word) =>
      WordIsLexeme(word);
      LexemeShape(word, Both);
    case Number(numeral) =>
      NumberIsLexeme(numeral);
      LexemeShape(numeral, Both);
    case Quoted(quote, body) => QuotedShape(quote, body, Both);
    case Path(head, steps) =>
      WordIsLexeme(head);
      LexemeShape(head, Both);
      StepsEnd(steps);
      StepsQuiet(steps);
      QuietConcat(head, PrintSteps(steps));
    case Not(gap, operand) =>
      BlankShape(gap, Both);
      PrintEnds(operand);
      TightIsQuiet(operand);
      QuietConcat(gap, Print(operand));
      GapFirst(gap, Print(operand));
      BangIsQuiet(gap + Print(operand));
    case Group(before, inner, after) =>
      PaddedBalanced(before, inner, after, Both);
      QuietWrap('(', before + Print(inner) + after, ')');
  }

  lemma GapFirst(gap: string, t: string)
    requires Blank(gap) && t != "" && t[0] != '='
    ensures (gap + t)[0] != '='
  {
    assert gap == "" ==> gap + t == t;
    assert gap != "" ==> IsSpace(gap[0]);
  }

  lemma BangIsQuiet(t: string)
    requires Quiet(t) && t != "" && t[0] != '='
    ensures Quiet("!" + t)
  {
    var s := "!" + t;
    FlatDepth(Both, "!");
    forall i | Pair(s, i) ensures Depth(Both, s[..i]) != 0 {
      assert i > 0 && Pair(t, i - 1);
      assert s[..i] == "!" + t[..i - 1];
      DepthConcat(Both, "!", t[..i - 1]);
    }
  }

  lemma {:induction false} StepsQuiet(s: Steps)
    requires WritableSteps(s)
    ensures Quiet(PrintSteps(s))
    decreases s
  {
    hide IsSpace, IsIdent, IsDigits, NoBrackets, Pair, Lexeme, Quiet, Blank;
    match s
    case End => BlankShape("", Both);
    case Dot(name, rest) =>
      WordIsLexeme(name);
      LexemeShape("." + name, Both);
      StepsEnd(rest);
      StepsQuiet(rest);
      QuietConcat("." + name, PrintSteps(rest));
    case Key(before, key, after, rest) =>
      var t := before + Print(key) + after;
      PaddedBalanced(before, key, after, Both);
      QuietWrap('[', t, ']');
      WrapBalanced(Both, '[', t, ']');
      StepsEnd(rest);
      StepsQuiet(rest);
      QuietConcat("[" + t + "]", PrintSteps(rest));
  }

  // ---- evaluating printed text ------------------------------------------------------------------------

  /** The first operator of `l gap op r` is `op`, when `l` shows none. */
  lemma OperatorHere(l: string, gap: string, op: Op, r: string)
    requires Solid(l) && Plain(l[|l| - 1]) && Balanced(Both, l) && Blank(gap) && r != "" && r[0] != '='
    ensures var expr := l + gap + op.Text() + r; OperatorAt(expr, |l + gap|) && OpAt(expr, |l + gap|) == op
  {
    hide IsSpace, Trim;
    var expr, at := l + gap + op.Text() + r, |l + gap|;
    BlankShape(gap, Both);
    DepthConcat(Both, l, gap);
    assert expr[..at] == l + gap;
    TrimPadded("", l, gap);
    assert "" + l + gap == l + gap;
    assert expr[at - 1] == (l + gap)[at - 1];
    NotMarked(gap);
  }

  lemma NotMarked(gap: string)
    requires Blank(gap)
    ensures forall i :: 0 <= i < |gap| ==> !Marks(gap[i])
  {
  }

  lemma NoneBefore(l: string, gap: string, r: string)
    requires Solid(l) && Plain(l[|l| - 1]) && Quiet(l) && Blank(gap)
    ensures forall i :: 0 <= i < |l + gap| ==> !OperatorAt(l + gap + r, i)
  {
    hide IsSpace, Trim, Solid;
    var expr := l + gap + r;
    NotMarked(gap);
    forall i | 0 <= i < |l + gap| ensures !OperatorAt(expr, i) {
      if i < |l| - 1 {
        assert expr[..i] == l[..i];
        assert Pair(expr, i) ==> Pair(l, i);
      } else if i >= |l| {
        assert expr[i] == gap[i - |l|];
      }
    }
  }

  /** A comparison is split at its own operator. */
  lemma SplitsAtOperator(e: Expr)
    requires Writable(e) && e.Compare?
    ensures var expr, at := Print(e), |Print(e.left) + e.gapL|;
      && FirstOperator(expr, 0) == at < |expr| && OpAt(expr, at) == e.op
      && expr[..at] == Print(e.left) + e.gapL && expr[at + |e.op.Text()|..] == e.gapR + Print(e.right)
  {
    hide Print, Solid, Plain, Quiet, Balanced, OperatorAt, OpAt, Writable, Blank;
    var l, r := Print(e.left), e.gapR + Print(e.right);
    Comparison(e);
    PrintEnds(e.left);
    PrintEnds(e.right);
    TightIsQuiet(e.left);
    PrintBalanced(e.left, Both);
    GapFirst(e.gapR, Print(e.right));
    OperatorHere(l, e.gapL, e.op, r);
    NoneBefore(l, e.gapL, e.op.Text() + r);
    assert l + e.gapL + (e.op.Text() + r) == l + e.gapL + e.op.Text() + r;
  }

  lemma Comparison(e: Expr)
    requires Writable(e) && e.Compare?
    ensures Print(e) == Print(e.left) + e.gapL + e.op.Text() + (e.gapR + Print(e.right))
    ensures Tight(e.left) && Writable(e.left) && Blank(e.gapL) && Blank(e.gapR) && Writable(e.right)
    ensures Print(e.left) != "" && Print(e.right) != ""
  {
    PrintEnds(e.left);
    PrintEnds(e.right);
  }

  /** A comparison that begins with a parenthesis closes it before its end. */
  lemma ComparisonNotWrapped(e: Expr)
    requires Writable(e) && e.Compare? && Print(e)[0] == '('
    ensures !WrapWhole(Print(e))
  {
    var l := Print(e.left);
    var expr := Print(e);
    PrintEnds(e.left);
    PrintBalanced(e.left, Round);
    assert expr[..|l|] == l;
  }

  lemma GroupIsWrapped(t: string)
    requires Balanced(Round, t)
    ensures WrapWhole("(" + t + ")")
  {
    var s := "(" + t + ")";
    forall i | 0 <= i < |s| - 1 && s[i] == ')' ensures Depth(Round, s[..i + 1]) != 0 {
      WrapDepth(Round, '(', t, ')', i);
    }
  }

  /** One dotted step of a walk. */
  lemma WalkDot<V>(js: Js<V>, vals: V, pre: string, name: string, tail: string, cur: V)
    requires IsIdent(name) || IsDigits(name)
    requires tail == "" || tail[0] == '.' || tail[0] == '['
    ensures var expr := pre + "." + name + tail;
      Walk(js, vals, expr, |pre|, cur) == Walk(js, vals, expr, |pre + "." + name|, js.Member(cur, js.text(name)))
  {
    hide StepRun, IsIdent, IsDigits;
    var expr := pre + "." + name + tail;
    assert expr[|pre| + 1..] == name + tail;
    StepStops(name, tail);
    assert (name + tail)[..|name|] == name;
  }

  /** One bracketed step of a walk. */
  lemma WalkKey<V>(js: Js<V>, vals: V, pre: string, t: string, tail: string, cur: V)
    requires Balanced(Square, t)
    ensures var expr := pre + "[" + t + "]" + tail;
      Walk(js, vals, expr, |pre|, cur)
      == Walk(js, vals, expr, |pre + "[" + t + "]"|, js.Member(cur, Resolve(js, vals, t)))
  {
    hide Balanced, Resolve, CloseFrom;
    var expr := pre + "[" + t + "]" + tail;
    ClosesAfter(pre + "[", t, tail, 0);
    assert expr[|pre| + 1..|pre| + 1 + |t|] == t;
  }

  /** The walk along a printed path. */
  lemma {:induction false} WalkPrinted<V>(js: Js<V>, vals: V, pre: string, s: Steps, cur: V)
    requires WritableSteps(s)
    ensures Walk(js, vals, pre + PrintSteps(s), |pre|, cur) == MeaningSteps(js, vals, s, cur)
    decreases s
  {
    match s
    case End =>
    case Dot(name, rest) =>
      hide Walk, IsIdent, IsDigits, PrintSteps;
      StepsEnd(rest);
      WalkDot(js, vals, pre, name, PrintSteps(rest), cur);
      StepsText(pre, s);
      WalkPrinted(js, vals, pre + "." + name, rest, js.Member(cur, js.text(name)));
    case Key(before, key, after, rest) =>
      hide Walk, Resolve, Blank, Balanced, PrintSteps, Print, Writable;
      var t := before + Print(key) + after;
      PaddedBalanced(before, key, after, Square);
      WalkKey(js, vals, pre, t, PrintSteps(rest), cur);
      ResolvePrinted(js, vals, before, key, after);
      StepsText(pre, s);
      WalkPrinted(js, vals, pre + "[" + t + "]", rest, js.Member(cur, Meaning(js, vals, key)));
  }

  lemma StepsText(pre: string, s: Steps)
    ensures match s
      case End => pre + PrintSteps(s) == pre
      case Dot(name, rest) => pre + PrintSteps(s) == pre + "." + name + PrintSteps(rest)
      case Key(before, key, after, rest) =>
        pre + PrintSteps(s) == pre + "[" + (before + Print(key) + after) + "]" + PrintSteps(rest)
  {
    hide Print;
    match s
    case End =>
    case Dot(name, rest) =>
      assert pre + ("." + name + PrintSteps(rest)) == pre + "." + name + PrintSteps(rest);
    case Key(before, key, after, rest) =>
      var t := before + Print(key) + after;
      assert pre + ("[" + t + "]" + PrintSteps(rest)) == pre + "[" + t + "]" + PrintSteps(rest);
  }

  lemma StepStops(name: string, tail: string)
    requires IsIdent(name) || IsDigits(name)
    requires tail == "" || tail[0] == '.' || tail[0] == '['
    ensures StepRun(name + tail) == |name| > 0
  {
    if IsIdent(name) {
      PartRunStops(name, tail);
    } else {
      DigitRunStops(name, tail);
    }
  }

  /** Text that begins like a name is none of the forms tried before a path. */
  lemma NameFirst(t: string)
    requires t != "" && IdentStart(t[0])
    ensures t[0] != '(' && t[0] != '!' && !IsNumber(t) && !IsQuote(t[0])
  {
  }

  lemma PathIsPath(e: Expr)
    requires Writable(e) && e.Path?
    ensures var t := Print(e);
      && t != "" && IdentStart(t[0]) && !IsKeyword(t)
      && IdentRun(t) == |e.head| > 0 && t[..|e.head|] == e.head
  {
    hide IsNumber;
    var t := Print(e);
    var tail := PrintSteps(e.steps);
    StepsEnd(e.steps);
    PartRunStops(e.head, tail);
    if e.steps.End? {
      assert t == e.head;
    } else {
      assert t[|e.head|] == tail[0];
      KeywordLetters(t, |e.head|);
    }
  }

  lemma KeywordLetters(t: string, i: nat)
    requires i < |t| && (t[i] == '.' || t[i] == '[')
    ensures !IsKeyword(t)
  {
  }

  /** How trimmed text that is neither wrapped nor a comparison is resolved. */
  lemma ResolveSimple<V>(js: Js<V>, vals: V, src: string)
    requires var expr := Trim(src); expr != "" && expr[0] != '(' && FirstOperator(expr, 0) == |expr|
    ensures var expr := Trim(src);
      Resolve(js, vals, src) ==
        if expr[0] == '!' then js.truth(!js.truthy(Resolve(js, vals, expr[1..])))
        else if IsKeyword(expr) then js.Word(expr)
        else if IsNumber(expr) then js.number(expr)
        else if |expr| >= 2 && IsQuote(expr[0]) && expr[|expr| - 1] == expr[0] then js.text(expr[1..|expr| - 1])
        else ResolvePath(js, vals, expr)
  {
    hide Trim, IsKeyword, IsNumber, IsQuote, FirstOperator;
  }

  lemma ResolveWrapped<V>(js: Js<V>, vals: V, src: string, t: string)
    requires Trim(src) == "(" + t + ")" && WrapWhole(Trim(src))
    ensures Resolve(js, vals, src) == Resolve(js, vals, t)
  {
    hide Trim, IsKeyword, IsNumber, IsQuote, FirstOperator, WrapWhole;
    assert ("(" + t + ")")[1..|t| + 1] == t;
  }

  lemma ResolveSplit<V>(js: Js<V>, vals: V, src: string)
    requires var expr := Trim(src);
      expr != "" && (expr[0] == '(' ==> !WrapWhole(expr)) && FirstOperator(expr, 0) < |expr|
    ensures var expr := Trim(src);
      var at := FirstOperator(expr, 0);
      var op := OpAt(expr, at);
      Resolve(js, vals, src)
        == js.Compare(op, Resolve(js, vals, expr[..at]), Resolve(js, vals, expr[at + |op.Text()|..]))
  {
    hide Trim, IsKeyword, IsNumber, IsQuote, FirstOperator, WrapWhole, OpAt;
  }

  lemma {:induction false} ResolveGroup<V>(js: Js<V>, vals: V, src: string, e: Expr)
    requires e.Group? && Writable(e) && Trim(src) == Print(e)
    ensures Resolve(js, vals, src) == Meaning(js, vals, e)
    decreases e, 0
  {
    hide Resolve, Trim, Balanced, Blank, WrapWhole;
    var t := e.before + Print(e.inner) + e.after;
    PaddedBalanced(e.before, e.inner, e.after, Round);
    GroupIsWrapped(t);
    ResolveWrapped(js, vals, src, t);
    ResolvePrinted(js, vals, e.before, e.inner, e.after);
  }

  lemma {:induction false} ResolveTight<V>(js: Js<V>, vals: V, src: string, e: Expr)
    requires Tight(e) && !e.Group? && Writable(e) && Trim(src) == Print(e)
    ensures Resolve(js, vals, src) == Meaning(js, vals, e)
    decreases e, 0
  {
    hide Resolve, Trim, IsKeyword, IsNumber, IsIdent, IsQuote, NoBrackets, Pair, Quiet, Blank, FirstOperator, Walk;
    TightIsQuiet(e);
    NoOperator(Print(e));
    ResolveLeaf(js, vals, e);
    ResolveSimple(js, vals, src);
    match e
    case Path(head, steps) =>
      WalkPrinted(js, vals, head, steps, js.Member(vals, js.text(head)));
    case Not(gap, operand) =>
      assert Print(e)[1..] == gap + Print(operand) + "";
      EmptyIsBlank();
      ResolvePrinted(js, vals, gap, operand, "");
    case _ =>
  }

  lemma {:induction false} ResolveComparison<V>(js: Js<V>, vals: V, src: string, e: Expr)
    requires e.Compare? && Writable(e) && Trim(src) == Print(e)
    ensures Resolve(js, vals, src) == Meaning(js, vals, e)
    decreases e, 0
  {
    hide Resolve, Trim, Print, Writable, Blank, FirstOperator, OpAt, WrapWhole;
    NonEmpty(e);
    Comparison(e);
    SplitsAtOperator(e);
    if Print(e)[0] == '(' { ComparisonNotWrapped(e); }
    ResolveSplit(js, vals, src);
    EmptyIsBlank();
    ResolvePrinted(js, vals, "", e.left, e.gapL);
    ResolvePrinted(js, vals, e.gapR, e.right, "");
    assert "" + Print(e.left) + e.gapL == Print(e.left) + e.gapL;
    assert e.gapR + Print(e.right) + "" == e.gapR + Print(e.right);
  }

  /**
   Evaluating the text of an expression gives the expression's meaning, whatever white space it is
   written with: nested parentheses, computed keys, negation and the four equalities included.
   */
  lemma {:induction false} ResolvePrinted<V>(js: Js<V>, vals: V, before: string, e: Expr, after: string)
    requires Blank(before) && Writable(e) && Blank(after)
    ensures Resolve(js, vals, before + Print(e) + after) == Meaning(js, vals, e)
    decreases e, 1
  {
    hide Resolve, Trim, Print, Meaning, Writable, Blank;
    var src := before + Print(e) + after;
    PrintEnds(e);
    TrimPadded(before, Print(e), after);
    if e.Group? {
      ResolveGroup(js, vals, src, e);
    } else if Tight(e) {
      ResolveTight(js, vals, src, e);
    } else {
      ResolveComparison(js, vals, src, e);
    }
  }

  /** What the four comparisons evaluate to, as they are written. */
  lemma ComparisonsMean<V>(js: Js<V>, vals: V, l: Expr, before: string, after: string, r: Expr)
    requires Tight(l) && Writable(l) && Writable(r) && Blank(before) && Blank(after)
    ensures var x, y := Meaning(js, vals, l), Meaning(js, vals, r);
      var left, right := Print(l) + before, after + Print(r);
      && Resolve(js, vals, left + "===" + right) == js.truth(js.strictEq(x, y))
      && Resolve(js, vals, left + "!==" + right) == js.truth(!js.strictEq(x, y))
      && Resolve(js, vals, left + "==" + right) == js.truth(js.looseEq(x, y))
      && Resolve(js, vals, left + "!=" + right) == js.truth(!js.looseEq(x, y))
  {
    hide Resolve;
    ComparisonMeans(js, vals, Compare(l, before, StrictEq, after, r));
    ComparisonMeans(js, vals, Compare(l, before, StrictNe, after, r));
    ComparisonMeans(js, vals, Compare(l, before, LooseEq, after, r));
    ComparisonMeans(js, vals, Compare(l, before, LooseNe, after, r));
  }

  lemma ComparisonMeans<V>(js: Js<V>, vals: V, e: Expr)
    requires Writable(e) && e.Compare?
    ensures Print(e) == Print(e.left) + e.gapL + e.op.Text() + (e.gapR + Print(e.right))
    ensures Resolve(js, vals, Print(e)) == Meaning(js, vals, e)
  {
    hide Resolve, Meaning;
    Comparison(e);
    EmptyIsBlank();
    ResolvePrinted(js, vals, "", e, "");
    assert "" + Print(e) + "" == Print(e);
  }

  /** What the four words evaluate to. */
  lemma WordsMean<V>(js: Js<V>, vals: V)
    ensures Resolve(js, vals, "true") == js.truth(true) && Resolve(js, vals, "false") == js.truth(false)
    ensures Resolve(js, vals, "null") == js.nil && Resolve(js, vals, "undefined") == js.undef
  {
    hide Resolve;
    AsWritten(js, vals, Keyword("true"));
    AsWritten(js, vals, Keyword("false"));
    AsWritten(js, vals, Keyword("null"));
    AsWritten(js, vals, Keyword("undefined"));
  }

  lemma NegationMeans<V>(js: Js<V>, vals: V, gap: string, e: Expr)
    requires Tight(e) && Writable(e) && Blank(gap)
    ensures Resolve(js, vals, "!" + gap + Print(e)) == js.truth(!js.truthy(Meaning(js, vals, e)))
  {
    hide Resolve, Blank;
    AsWritten(js, vals, Not(gap, e));
    assert "!" + gap + Print(e) == "!" + (gap + Print(e));
  }

  /** What a name and a member of it evaluate to. */
  lemma MembersMean<V>(js: Js<V>, vals: V, head: string, name: string)
    requires IsIdent(head) && !IsKeyword(head) && IsIdent(name)
    ensures var top := if js.nullish(vals) then js.undef else js.get(vals, js.text(head));
      && Resolve(js, vals, head) == top
      && Resolve(js, vals, head + "." + name) == (if js.nullish(top) then js.undef else js.get(top, js.text(name)))
  {
    hide Resolve, IsIdent, IsKeyword;
    AsWritten(js, vals, Path(head, End));
    assert head + "" == head;
    var steps := Dot(name, End);
    assert WritableSteps(End) && PrintSteps(End) == "" && PrintSteps(steps) == "." + name + "";
    AsWritten(js, vals, Path(head, steps));
    assert head + ("." + name + "") == head + "." + name;
    var top := if js.nullish(vals) then js.undef else js.get(vals, js.text(head));
    assert MeaningSteps(js, vals, steps, top) == if js.nullish(top) then js.undef else js.get(top, js.text(name));
  }

  lemma AsWritten<V>(js: Js<V>, vals: V, e: Expr)
    requires Writable(e)
    ensures Resolve(js, vals, Print(e)) == Meaning(js, vals, e)
  {
    hide Resolve, Meaning;
    EmptyIsBlank();
    ResolvePrinted(js, vals, "", e, "");
    assert "" + Print(e) + "" == Print(e);
  }

  // ---- text that is not an expression ----------------------------------------------------------------

  /** A path breaks off: at a character that is no step, a dot without a name, or a bracket that is not closed. */
  predicate BreaksOff(rest: string) {
    || (FirstOf(rest) != "" && rest[0] != '.' && rest[0] != '[')
    || (FirstOf(rest) == "." && (|rest| == 1 || (!IdentStart(rest[1]) && !IsDigit(rest[1]))))
    || (FirstOf(rest) == "[" && forall i :: 0 <= i < |rest| ==> rest[i] != ']')
  }

  function FirstOf(s: string): string { if s == "" then "" else s[..1] }

  /** ... and then it is undefined. */
  lemma BrokenPathIsUndefined<V>(js: Js<V>, vals: V, pre: string, rest: string, cur: V)
    requires BreaksOff(rest)
    ensures Walk(js, vals, pre + rest, |pre|, cur) == js.undef
  {
    hide Walk, StepRun;
    var expr := pre + rest;
    assert expr[|pre|] == rest[0];
    assert expr[|pre| + 1..] == rest[1..];
    NoStep(rest[1..]);
    if rest[0] == '[' {
      NeverCloses(expr, |pre| + 1, |pre| + 1);
    }
    BreaksAt(js, vals, expr, |pre|, cur);
  }

  lemma NoStep(s: string)
    ensures (s == "" || (!IdentStart(s[0]) && !IsDigit(s[0]))) ==> StepRun(s) == 0
  {
  }

  lemma BreaksAt<V>(js: Js<V>, vals: V, expr: string, i: nat, cur: V)
    requires i < |expr|
    requires expr[i] == '.' ==> StepRun(expr[i + 1..]) == 0
    requires expr[i] == '[' ==> CloseFrom(expr, i + 1, i + 1) == |expr|
    ensures Walk(js, vals, expr, i, cur) == js.undef
  {
    hide StepRun, CloseFrom, Resolve;
  }

  lemma {:induction false} NeverCloses(expr: string, start: nat, j: nat)
    requires start <= j <= |expr| && forall i :: start <= i < |expr| ==> expr[i] != ']'
    ensures CloseFrom(expr, start, j) == |expr|
    decreases |expr| - j
  {
    if j < |expr| { NeverCloses(expr, start, j + 1); }
  }

  /** Text of white space is undefined. */
  lemma NothingIsUndefined<V>(js: Js<V>, vals: V, src: string)
    requires Trim(src) == ""
    ensures Resolve(js, vals, src) == js.undef
  {
  }

  /** An operator with nothing before it does not split the text, at none of its characters. */
  lemma LeadingOperatorIsNone(gap: string, op: Op, rest: string, k: nat)
    requires Blank(gap) && k < |op.Text()|
    ensures !OperatorAt(gap + op.Text() + rest, |gap| + k)
  {
    hide IsSpace, Trim;
    var expr := gap + op.Text() + rest;
    assert expr[..|gap|] == gap;
    assert k > 0 ==> expr[|gap| + k - 1] == op.Text()[k - 1];
    BlankTrims(gap);
  }

  lemma {:induction false} BlankTrims(gap: string)
    requires Blank(gap)
    ensures Trim(gap) == ""
  {
    if gap != "" {
      assert Blank(gap[1..]);
      BlankTrims(gap[1..]);
    }
  }

  lemma EmptyIsBlank()
    ensures Blank("")
  {
  }

  lemma NonEmpty(e: Expr)
    requires Writable(e)
    ensures Print(e) != ""
  {
    PrintEnds(e);
  }

  /** Which of the simple forms the text of a tree has. */
  lemma ResolveLeaf<V>(js: Js<V>, vals: V, e: Expr)
    requires Writable(e) && Tight(e) && !e.Group?
    ensures var t := Print(e); t != "" && t[0] != '('
    ensures match e
      case Keyword(word) => word[0] != '!' && IsKeyword(word)
      case Number(numeral) => numeral[0] != '!' && !IsKeyword(numeral) && IsNumber(numeral)
      case Quoted(quote, body) =>
        var t := Print(e);
        t[0] != '!' && !IsKeyword(t) && !IsNumber(t) && |t| >= 2 && IsQuote(t[0]) && t[|t| - 1] == t[0]
          && t[1..|t| - 1] == body
      case Path(head, steps) =>
        var t := Print(e);
        && t[0] != '!' && !IsKeyword(t) && !IsNumber(t) && !IsQuote(t[0])
        && ResolvePath(js, vals, t) == Walk(js, vals, t, |head|, js.Member(vals, js.text(head)))
      case Not(_, _) => Print(e)[0] == '!'
      case _ => true
  {
    hide Walk;
    PrintEnds(e);
    match e
    case Keyword(_) =>
    case Number(numeral) => NumberChars(numeral);
    case Quoted(quote, body) =>
      hide IsNumber;
      var t := Print(e);
      QuoteFirst(t);
      assert t[1..|t| - 1] == body;
    case Path(_, _) =>
      hide IsNumber, IsQuote, IsKeyword;
      PathIsPath(e);
      NameFirst(Print(e));
    case Not(_, _) =>
  }

  lemma QuoteFirst(t: string)
    requires t != "" && IsQuote(t[0])
    ensures t[0] != '!' && !IsKeyword(t) && !IsNumber(t)
  {
  }

  // ---- literals that hold an operator ----------------------------------------------------------------

  /** A host whose comparisons all give `false` and whose strings all give `true`. */
  function Bits(): Js<bool> {
    Js((x, y) => x, x => false, x => x, (x, y) => x == y, (x, y) => x == y,
       x => false, s => false, s => true, false, false)
  }

  /**
   A string literal evaluates to its own text, in every host, exactly when the scanner finds no
   top-level operator in it: `'a==b'` is taken for a comparison of two broken paths.
   */
  lemma LiteralSurvives(quote: char, body: string)
    requires IsQuote(quote)
    ensures var t := [quote] + body + [quote];
      (forall js: Js<bool>, vals: bool :: Resolve(js, vals, t) == js.text(body)) <==> FirstOperator(t, 0) == |t|
  {
    hide Resolve, FirstOperator, IsSpace, IsKeyword, IsNumber, ResolvePath, Trim, OpAt, WrapWhole, OperatorAt;
    var t := [quote] + body + [quote];
    QuoteEnds(quote);
    TrimPadded("", t, "");
    assert "" + t + "" == t;
    assert t[1..|t| - 1] == body;
    QuoteFirst(t);
    if FirstOperator(t, 0) == |t| {
      forall js: Js<bool>, vals: bool ensures Resolve(js, vals, t) == js.text(body) {
        ResolveSimple(js, vals, t);
      }
    } else {
      ResolveSplit(Bits(), false, t);
      assert Resolve(Bits(), false, t) != Bits().text(body);
    }
  }

  lemma QuoteEnds(quote: char)
    requires IsQuote(quote)
    ensures !IsSpace(quote) && quote != '('
  {
  }

  lemma OperatorInLiteral()
    ensures OperatorAt("'a==b'", 2)
  {
    var t := "'a==b'";
    assert t[..2] == "'a";
    FlatDepth(Both, "'a");
    TrimPadded("", "'a", "");
    assert "" + "'a" + "" == "'a";
  }

  /** A quote that is not closed by the same quote at the end makes the text undefined. */
  lemma OpenQuoteIsUndefined<V>(js: Js<V>, vals: V, t: string)
    requires Solid(t) && IsQuote(t[0]) && (|t| == 1 || t[|t| - 1] != t[0]) && FirstOperator(t, 0) == |t|
    ensures Resolve(js, vals, t) == js.undef
  {
    hide Resolve, FirstOperator, IsSpace, IsKeyword, IsNumber, Walk, Trim;
    EmptyIsBlank();
    TrimPadded("", t, "");
    assert "" + t + "" == t;
    QuoteFirst(t);
    ResolveSimple(js, vals, t);
    assert IdentRun(t) == 0;
  }
}
