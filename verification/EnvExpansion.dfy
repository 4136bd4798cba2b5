/** Expansion of `${NAME}` and `${NAME:default}` placeholders in configuration strings. */
module EnvExpansion {
  import opened Text
  import opened Wrappers

  /** Why an expansion fails. */
  datatype Error =
    | MissingBrace(rest: string)
    | EmptyExpression
    | EmptyName(expr: string)
    | Required(name: string)

  /** White space as Unicode defines it, which is what trimming removes. */
  predicate IsSpace(c: char) {
    || '\t' <= c <= '\r' || c == ' ' || c == '\U{0085}' || c == '\U{00A0}' || c == '\U{1680}'
    || '\U{2000}' <= c <= '\U{200A}' || c == '\U{2028}' || c == '\U{2029}' || c == '\U{202F}'
    || c == '\U{205F}' || c == '\U{3000}'
  }

  /** The 25 characters that trimming removes. */
  lemma SpacesAre(c: char)
    ensures IsSpace(c) <==> c as int in {
      9, 10, 11, 12, 13, 32, 0x85, 0xA0, 0x1680, 0x2000, 0x2001, 0x2002, 0x2003, 0x2004, 0x2005, 0x2006, 0x2007, 0x2008,
      0x2009, 0x200A, 0x2028, 0x2029, 0x202F, 0x205F, 0x3000}
  {
  }

  function TrimLeft(s: string): string {
    if s != "" && IsSpace(s[0]) then TrimLeft(s[1..]) else s
  }

  function TrimRight(s: string): string {
    if s != "" && IsSpace(s[|s| - 1]) then TrimRight(s[..|s| - 1]) else s
  }

  function TrimSpace(s: string): string {
    TrimRight(TrimLeft(s))
  }

  /** The name, the default, and whether there is one: the expression is split at its first colon. */
  function SplitExpression(expr: string): (string, string, bool) {
    var i := IndexOf(expr, ':');
    if i.None? then (expr, "", false) else (expr[..i.value], expr[i.value + 1..], true)
  }

  function Evaluate(raw: string, env: map<string, string>): Result<string, Error> {
    var expr := TrimSpace(raw);
    if expr == "" then Failure(EmptyExpression)
    else
      var (untrimmed, default, hasDefault) := SplitExpression(expr);
      var name := TrimSpace(untrimmed);
      if name == "" then Failure(EmptyName(expr))
      else if name in env && env[name] != "" then Success(env[name])
      else if hasDefault then Success(default)
      else Failure(Required(name))
  }

  /** The parts of a configuration string. */
  datatype Segment = Literal(text: string) | Placeholder(expr: string) | Unclosed(expr: string)

  predicate Opens(s: string) {
    |s| >= 2 && s[0] == '$' && s[1] == '{'
  }

  /** The parts of s: a `${` runs to the next `}`, and everything else is literal. */
  function Scan(s: string): seq<Segment>
    decreases |s|
  {
    if s == "" then []
    else if Opens(s) then
      var end := IndexOf(s[2..], '}');
      if end.None? then [Unclosed(s[2..])]
      else [Placeholder(s[2..2 + end.value])] + Scan(s[end.value + 3..])
    else WithChar(s[0], Scan(s[1..]))
  }

  /** One more literal character in front. */
  function WithChar(c: char, segments: seq<Segment>): seq<Segment> {
    if segments != [] && segments[0].Literal? then [Literal([c] + segments[0].text)] + segments[1..]
    else [Literal([c])] + segments
  }

  function PrintSegment(g: Segment): string {
    match g
    case Literal(t) => t
    case Placeholder(e) => "${" + e + "}"
    case Unclosed(e) => "${" + e
  }

  function Print(segments: seq<Segment>): string {
    if segments == [] then "" else PrintSegment(segments[0]) + Print(segments[1..])
  }

  /** The value of a list of parts: the literals and the values of the placeholders, or the first error. */
  function Expand(segments: seq<Segment>, env: map<string, string>): Result<string, Error> {
    if segments == [] then Success("")
    else
      match segments[0]
      case Literal(t) => Prepend(t, Expand(segments[1..], env))
      case Placeholder(e) =>
        var v := Evaluate(e, env);
        if v.Failure? then v else Prepend(v.value, Expand(segments[1..], env))
      case Unclosed(e) => Failure(MissingBrace("${" + e))
  }

  function Prepend(t: string, r: Result<string, Error>): Result<string, Error> {
    if r.Success? then Success(t + r.value) else r
  }

  lemma PrependTwice(t: string, u: string, r: Result<string, Error>)
    ensures Prepend(t, Prepend(u, r)) == Prepend(t + u, r)
  {
    if r.Success? {
      assert t + (u + r.value) == t + u + r.value;
    }
  }

  lemma ExpandWithChar(c: char, segments: seq<Segment>, env: map<string, string>)
    ensures Expand(WithChar(c, segments), env) == Prepend([c], Expand(segments, env))
  {
    var w := WithChar(c, segments);
    if segments != [] && segments[0].Literal? {
      assert w[1..] == segments[1..];
      PrependTwice([c], segments[0].text, Expand(segments[1..], env));
    } else {
      assert w[1..] == segments;
    }
  }

  lemma ScanOpening(s: string, end: Option<nat>)
    requires Opens(s) && end == IndexOf(s[2..], '}')
    ensures Scan(s) == if end.None? then [Unclosed(s[2..])]
                       else [Placeholder(s[2..2 + end.value])] + Scan(s[end.value + 3..])
  {
  }

  lemma ExpandFirst(g: Segment, rest: seq<Segment>, env: map<string, string>)
    requires !g.Literal?
    ensures Expand([g] + rest, env) ==
      if g.Unclosed? then Failure(MissingBrace("${" + g.expr))
      else
        var v := Evaluate(g.expr, env);
        if v.Failure? then v else Prepend(v.value, Expand(rest, env))
  {
    assert ([g] + rest)[1..] == rest;
  }

  /** One pass of the loop: the text for the character or placeholder at i, and where to go on. */
  method NextPiece(value: string, i: nat, env: map<string, string>) returns (piece: Result<string, Error>, next: nat)
    requires i < |value|
    ensures i < next <= |value|
    ensures Expand(Scan(value[i..]), env)
         == if piece.Failure? then piece else Prepend(piece.value, Expand(Scan(value[next..]), env))
  {
    ghost var s := value[i..];
    if value[i] != '$' || i + 1 >= |value| || value[i + 1] != '{' {
      assert s[1..] == value[i + 1..];
      ExpandWithChar(s[0], Scan(s[1..]), env);
      return Success([value[i]]), i + 1;
    }
    assert s[2..] == value[i + 2..];
    var end := IndexOf(value[i + 2..], '}');
    if end.None? {
      UnclosedFails(s, env);
      return Failure(MissingBrace(value[i..])), |value|;
    }
    next := i + 2 + end.value + 1;
    var expr := value[i + 2..i + 2 + end.value];
    assert s[end.value + 3..] == value[next..] && s[2..2 + end.value] == expr;
    ClosedEvaluates(s, end.value, expr, value[next..], env);
    piece := Evaluate(expr, env);
  }

  lemma UnclosedFails(s: string, env: map<string, string>)
    requires Opens(s) && IndexOf(s[2..], '}').None?
    ensures Expand(Scan(s), env) == Failure(MissingBrace(s))
  {
    ScanOpening(s, None);
    assert s == "${" + s[2..] && [Unclosed(s[2..])] == [Unclosed(s[2..])] + [];
    ExpandFirst(Unclosed(s[2..]), [], env);
  }

  lemma ClosedEvaluates(s: string, n: nat, expr: string, rest: string, env: map<string, string>)
    requires Opens(s) && IndexOf(s[2..], '}') == Some(n) && s[2..2 + n] == expr && s[n + 3..] == rest
    ensures Expand(Scan(s), env)
         == var v := Evaluate(expr, env); if v.Failure? then v else Prepend(v.value, Expand(Scan(rest), env))
  {
    ScanOpening(s, Some(n));
    ExpandFirst(Placeholder(expr), Scan(rest), env);
  }

  /** The scanning loop computes the value of the parts of its input; substituted text is never scanned. */
  method ExpandEnvString(value: string, env: map<string, string>) returns (r: Result<string, Error>)
    ensures r == Expand(Scan(value), env)
  {
    ghost var whole := Expand(Scan(value), env);
    var builder := "";
    var i := 0;
    assert value[0..] == value && (whole.Success? ==> "" + whole.value == whole.value);
    while i < |value|
      invariant i <= |value|
      invariant Prepend(builder, Expand(Scan(value[i..]), env)) == whole
    {
      var piece, next := NextPiece(value, i, env);
      if piece.Failure? {
        return piece;
      }
      PrependTwice(builder, piece.value, Expand(Scan(value[next..]), env));
      builder := builder + piece.value;
      i := next;
    }
    assert builder + "" == builder;
    return Success(builder);
  }

  /** No `${` occurs in t. */
  ghost predicate Inert(t: string) {
    forall k | 0 <= k < |t| - 1 :: !(t[k] == '$' && t[k + 1] == '{')
  }

  /** A literal that the scanner cannot mistake for anything else. */
  ghost predicate PlainText(t: string) {
    t != "" && Inert(t)
  }

  ghost predicate CanonicalSegment(g: Segment) {
    match g
    case Literal(t) => PlainText(t)
    case Placeholder(e) => '}' !in e
    case Unclosed(e) => '}' !in e
  }

  /** Lists of parts that are scans: no two literals in a row, and nothing after an unclosed placeholder. */
  ghost predicate Canonical(segments: seq<Segment>) {
    segments == []
    || (&& CanonicalSegment(segments[0]) && Canonical(segments[1..])
        && (segments[0].Unclosed? ==> |segments| == 1)
        && (segments[0].Literal? && |segments| > 1 ==> !segments[1].Literal?))
  }

  lemma PrintFirst(g: Segment, rest: seq<Segment>)
    ensures Print([g] + rest) == PrintSegment(g) + Print(rest)
  {
    assert ([g] + rest)[1..] == rest;
  }

  lemma PrintWithChar(c: char, segments: seq<Segment>)
    ensures Print(WithChar(c, segments)) == [c] + Print(segments)
  {
    if segments != [] && segments[0].Literal? {
      var t, rest := segments[0].text, segments[1..];
      PrintFirst(Literal([c] + t), rest);
      assert [c] + t + Print(rest) == [c] + (t + Print(rest));
    } else {
      PrintFirst(Literal([c]), segments);
    }
  }

  lemma PrintPlaceholder(s: string, e: string, rest: string)
    requires Opens(s) && 2 + |e| < |s| && s[2..2 + |e|] == e && s[2 + |e|] == '}' && s[3 + |e|..] == rest
    requires Scan(s) == [Placeholder(e)] + Scan(rest) && Print(Scan(rest)) == rest
    ensures Print(Scan(s)) == s
  {
    PrintFirst(Placeholder(e), Scan(rest));
    AroundPlaceholder(s, e, rest);
  }

  lemma AroundPlaceholder(s: string, e: string, rest: string)
    requires Opens(s) && 2 + |e| < |s| && s[2..2 + |e|] == e && s[2 + |e|] == '}' && s[3 + |e|..] == rest
    ensures PrintSegment(Placeholder(e)) + rest == s
  {
    assert s == "${" + e + "}" + rest;
  }

  /** Printing a scan gives the input back. */
  lemma {:induction false} PrintAfterScan(s: string)
    ensures Print(Scan(s)) == s
    decreases |s|
  {
    if s == "" {
    } else if Opens(s) {
      var end := IndexOf(s[2..], '}');
      ScanOpening(s, end);
      if end.Some? {
        var e, rest := s[2..2 + end.value], s[end.value + 3..];
        PrintAfterScan(rest);
        PrintPlaceholder(s, e, rest);
      } else {
        PrintFirst(Unclosed(s[2..]), []);
        assert s == "${" + s[2..] + "" && [Unclosed(s[2..])] + [] == [Unclosed(s[2..])];
      }
    } else {
      PrintAfterScan(s[1..]);
      PrintWithChar(s[0], Scan(s[1..]));
    }
  }

  lemma {:induction false} ScanIsCanonical(s: string)
    ensures Canonical(Scan(s))
    ensures Scan(s) != [] && Scan(s)[0].Literal? ==> s != "" && s[0] == Scan(s)[0].text[0] && !Opens(s)
    decreases |s|
  {
    if s == "" {
    } else if Opens(s) {
      var end := IndexOf(s[2..], '}');
      if end.Some? {
        ScanIsCanonical(s[end.value + 3..]);
        assert Scan(s)[1..] == Scan(s[end.value + 3..]);
      }
    } else {
      ScanIsCanonical(s[1..]);
      var rest := Scan(s[1..]);
      if rest != [] && rest[0].Literal? {
        assert WithChar(s[0], rest)[1..] == rest[1..];
        assert |rest[0].text| > 1 ==> rest[0].text[1] == Print(rest)[1] == s[2] by {
          PrintAfterScan(s[1..]);
        }
      } else {
        assert WithChar(s[0], rest)[1..] == rest;
      }
    }
  }

  lemma ScanPlaceholder(e: string, rest: string)
    requires '}' !in e
    ensures Scan("${" + e + "}" + rest) == [Placeholder(e)] + Scan(rest)
  {
    var s := "${" + e + "}" + rest;
    assert s[2..] == e + ['}'] + rest;
    FirstIndex(e, '}', rest);
    assert s[2..2 + |e|] == e && s[|e| + 3..] == rest;
  }

  lemma {:induction false} ScanLiteral(t: string, rest: string)
    requires PlainText(t)
    requires rest == "" || Opens(rest)
    ensures Scan(t + rest) == [Literal(t)] + Scan(rest)
  {
    var s := t + rest;
    assert s[1..] == t[1..] + rest;
    assert !Opens(s) by {
      if |t| > 1 {
        assert s[1] == t[1];
      }
    }
    if |t| == 1 {
      assert s[1..] == rest && t == [t[0]];
      assert rest != "" ==> !Scan(rest)[0].Literal?;
    } else {
      var u := t[1..];
      assert forall k | 0 <= k < |u| :: u[k] == t[k + 1];
      ScanLiteral(u, rest);
      assert ([Literal(u)] + Scan(rest))[1..] == Scan(rest);
      assert t == [t[0]] + u;
    }
  }

  /** Scanning a printed canonical list gives the list back. */
  lemma {:induction false} ScanAfterPrint(segments: seq<Segment>)
    requires Canonical(segments)
    ensures Scan(Print(segments)) == segments
  {
    if segments != [] {
      var g, rest := segments[0], segments[1..];
      ScanAfterPrint(rest);
      assert segments == [g] + rest;
      match g
      case Literal(t) =>
        PrintOpens(rest);
        ScanLiteral(t, Print(rest));
      case Placeholder(e) =>
        ScanPlaceholder(e, Print(rest));
      case Unclosed(e) =>
        assert rest == [] && Print(segments) == "${" + e;
        assert Print(segments)[2..] == e;
    }
  }

  lemma PrintOpens(segments: seq<Segment>)
    requires segments != [] ==> !segments[0].Literal?
    ensures Print(segments) == "" || Opens(Print(segments))
  {
  }

  /** Expansion succeeds exactly when every placeholder is closed and evaluates. */
  lemma {:induction false} ExpandFailsIff(segments: seq<Segment>, env: map<string, string>)
    ensures Expand(segments, env).Failure?
            <==> exists g :: g in segments && (g.Unclosed? || (g.Placeholder? && Evaluate(g.expr, env).Failure?))
  {
    if segments != [] {
      ExpandFailsIff(segments[1..], env);
      assert segments == [segments[0]] + segments[1..];
    }
  }

  /** Text without a placeholder stays as it is. */
  lemma ExpandInert(t: string, env: map<string, string>)
    requires Inert(t)
    ensures Expand(Scan(t), env) == Success(t)
  {
    if t != "" {
      ScanLiteral(t, "");
      assert t + "" == t && [Literal(t)] + [] == [Literal(t)];
    }
  }

  /** A placeholder is replaced by its value between the text before it and the expansion of the text after it. */
  lemma ExpandPlaceholder(whole: string, t: string, e: string, rest: string, env: map<string, string>)
    requires whole == t + "${" + e + "}" + rest && Inert(t) && '}' !in e
    ensures Expand(Scan(whole), env)
         == var value, more := Evaluate(e, env), Expand(Scan(rest), env);
            if value.Failure? then value
            else if more.Failure? then more
            else Success(t + value.value + more.value)
  {
    var s := ExpandClosed(whole, t, e, rest, env);
    ExpandAfterText(whole, t, s, env);
    Joined(t, Evaluate(e, env), Expand(Scan(rest), env));
  }

  lemma ExpandClosed(whole: string, t: string, e: string, rest: string, env: map<string, string>) returns (s: string)
    requires whole == t + "${" + e + "}" + rest && '}' !in e
    ensures whole == t + s && Opens(s)
    ensures Expand(Scan(s), env)
         == var value, more := Evaluate(e, env), Expand(Scan(rest), env);
            if value.Failure? then value
            else if more.Failure? then more
            else Success(value.value + more.value)
  {
    s := PlaceholderText(t, e, rest);
    ExpandScanned(s, e, rest, env);
  }

  lemma PlaceholderText(t: string, e: string, rest: string) returns (s: string)
    requires '}' !in e
    ensures t + "${" + e + "}" + rest == t + s && Opens(s) && Scan(s) == [Placeholder(e)] + Scan(rest)
  {
    s := "${" + e + "}" + rest;
    ScanPlaceholder(e, rest);
  }

  lemma ExpandScanned(s: string, e: string, rest: string, env: map<string, string>)
    requires Scan(s) == [Placeholder(e)] + Scan(rest)
    ensures Expand(Scan(s), env)
         == var value, more := Evaluate(e, env), Expand(Scan(rest), env);
            if value.Failure? then value
            else if more.Failure? then more
            else Success(value.value + more.value)
  {
    ExpandFirst(Placeholder(e), Scan(rest), env);
  }

  lemma Joined(t: string, value: Result<string, Error>, more: Result<string, Error>)
    ensures value.Success? && more.Success? ==> t + (value.value + more.value) == t + value.value + more.value
  {
  }

  /** An unclosed placeholder is an error that shows the rest of the text. */
  lemma ExpandUnclosed(t: string, e: string, env: map<string, string>)
    requires Inert(t) && '}' !in e
    ensures Expand(Scan(t + "${" + e), env) == Failure(MissingBrace("${" + e))
  {
    var s := "${" + e;
    assert s[2..] == e;
    ScanOpening(s, None);
    assert t + "${" + e == t + s;
    ExpandAfterText(t + s, t, s, env);
  }

  lemma ExpandAfterText(whole: string, t: string, s: string, env: map<string, string>)
    requires whole == t + s && Inert(t) && Opens(s)
    ensures Expand(Scan(whole), env)
         == var r := Expand(Scan(s), env); if r.Failure? then r else Success(t + r.value)
  {
    if t == "" {
      assert whole == s;
      var r := Expand(Scan(s), env);
      assert r.Success? ==> "" + r.value == r.value;
    } else {
      ScanLiteral(t, s);
      assert ([Literal(t)] + Scan(s))[1..] == Scan(s);
    }
  }

  ghost predicate Blank(s: string) {
    forall c | c in s :: IsSpace(c)
  }

  ghost predicate Trimmed(s: string) {
    s != "" && !IsSpace(s[0]) && !IsSpace(s[|s| - 1])
  }

  lemma {:induction false} TrimLeftOfPadded(p: string, s: string)
    requires Blank(p) && (s != "" ==> !IsSpace(s[0]))
    ensures TrimLeft(p + s) == s
  {
    if p == "" {
      assert p + s == s;
    } else {
      assert (p + s)[1..] == p[1..] + s && (p + s)[0] in p;
      TrimLeftOfPadded(p[1..], s);
    }
  }

  lemma {:induction false} TrimRightOfPadded(s: string, q: string)
    requires Blank(q) && (s != "" ==> !IsSpace(s[|s| - 1]))
    ensures TrimRight(s + q) == s
  {
    if q == "" {
      assert s + q == s;
    } else {
      assert (s + q)[..|s + q| - 1] == s + q[..|q| - 1] && (s + q)[|s + q| - 1] in q;
      TrimRightOfPadded(s, q[..|q| - 1]);
    }
  }

  lemma TrimOfPadded(p: string, s: string, q: string)
    requires Blank(p) && Blank(q) && Trimmed(s)
    ensures TrimSpace(p + s + q) == s
  {
    assert p + s + q == p + (s + q);
    TrimLeftOfPadded(p, s + q);
    TrimRightOfPadded(s, q);
  }

  /** Blanks around the name do not matter, a default may hold anything, and an empty variable counts as unset. */
  lemma EvaluateWithDefault(p: string, name: string, q: string, default: string, r: string, env: map<string, string>)
    requires Blank(p) && Blank(q) && Blank(r) && Trimmed(name) && ':' !in name
    requires default == "" || !IsSpace(default[|default| - 1])
    ensures Evaluate(p + name + q + ":" + default + r, env)
         == Success(if name in env && env[name] != "" then env[name] else default)
  {
    var expr := name + q + ":" + default;
    assert p + name + q + ":" + default + r == p + expr + r;
    TrimOfPadded(p, expr, r);
    FirstIndex(name + q, ':', default);
    assert expr == (name + q) + ":" + default;
    assert expr[..|name + q|] == name + q && expr[|name + q| + 1..] == default;
    assert "" + name + q == name + q;
    TrimOfPadded("", name, q);
  }

  lemma {:induction false} TrimOfBlank(s: string)
    requires Blank(s)
    ensures TrimSpace(s) == ""
  {
    TrimLeftOfPadded(s, "");
    assert s + "" == s;
  }

  /** An expression of blanks is an error, and so is one whose name is blank. */
  lemma EvaluateNothing(p: string, env: map<string, string>)
    requires Blank(p)
    ensures Evaluate(p, env) == Failure(EmptyExpression)
  {
    TrimOfBlank(p);
  }

  lemma EvaluateWithoutName(p: string, default: string, r: string, env: map<string, string>)
    requires Blank(p) && Blank(r) && (default == "" || !IsSpace(default[|default| - 1]))
    ensures Evaluate(p + ":" + default + r, env) == Failure(EmptyName(":" + default))
  {
    var expr := ":" + default;
    assert p + ":" + default + r == p + expr + r;
    TrimOfPadded(p, expr, r);
    FirstIndex("", ':', default);
    assert "" + ":" + default == expr && expr[..0] == "";
  }

  /** Without a default the variable has to be set and nonempty. */
  lemma EvaluateRequired(p: string, name: string, q: string, env: map<string, string>)
    requires Blank(p) && Blank(q) && Trimmed(name) && ':' !in name
    ensures Evaluate(p + name + q, env)
         == if name in env && env[name] != "" then Success(env[name]) else Failure(Required(name))
  {
    TrimOfPadded(p, name, q);
    assert "" + name + "" == name;
    TrimOfPadded("", name, "");
  }
}
