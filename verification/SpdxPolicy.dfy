/** Category X evaluation of SPDX expressions (legal/license_policy.py).
    Tokens are what the tokenizer yields: a bracket or a run of ASCII letters,
    digits, dots, plus and minus signs. */
module SpdxPolicy {
  import opened Options

  const CATEGORY_X_IDS := {
    "AGPL-3.0", "AGPL-3.0-ONLY", "AGPL-3.0-OR-LATER", "APSL-2.0", "BSD-2-CLAUSE-PATENT", "BSD-4-CLAUSE",
    "BUSL-1.1", "CPOL-1.02", "GPL-1.0", "GPL-1.0-ONLY", "GPL-1.0-OR-LATER", "GPL-2.0", "GPL-2.0-ONLY",
    "GPL-2.0-OR-LATER", "GPL-3.0", "GPL-3.0-ONLY", "GPL-3.0-OR-LATER", "JSON", "LGPL-2.0", "LGPL-2.0-ONLY",
    "LGPL-2.0-OR-LATER", "LGPL-2.1", "LGPL-2.1-ONLY", "LGPL-2.1-OR-LATER", "LGPL-3.0", "LGPL-3.0-ONLY",
    "LGPL-3.0-OR-LATER", "MS-LPL", "NPL-1.0", "NPL-1.1", "QPL-1.0", "SLEEPYCAT", "SSPL-1.0"
  }
  const GPL_2_ONLY_IDS := {"GPL-2.0", "GPL-2.0-ONLY"}
  const CLASSPATH_EXCEPTION := "CLASSPATH-EXCEPTION-2.0"

  function UpperChar(c: char): char {
    if 'a' <= c <= 'z' then (c as int - 32) as char else c
  }

  /** Tokens hold no whitespace, so stripping them changes nothing. */
  function Upper(token: string): string {
    if token == "" then "" else [UpperChar(token[0])] + Upper(token[1..])
  }

  predicate IdentifierIsCategoryX(token: string) { Upper(token) in CATEGORY_X_IDS }

  predicate WithIsCategoryX(id: string, exception: string) {
    !(Upper(id) in GPL_2_ONLY_IDS && Upper(exception) == CLASSPATH_EXCEPTION) && IdentifierIsCategoryX(id)
  }

  predicate Reserved(token: string) { token == "AND" || token == "OR" || token == "WITH" || token == ")" }

  datatype ParseError = UnexpectedEnd | UnbalancedParentheses | UnexpectedToken(token: string)

  datatype Parse = Failure(error: ParseError) | Success(value: bool, next: nat)

  // The grammar the loops implement

  predicate IsOperator(tokens: seq<string>, i: nat, operator: string) {
    i < |tokens| && Upper(tokens[i]) == operator
  }

  function ParseOr(tokens: seq<string>, i: nat): (r: Parse)
    requires i <= |tokens|
    ensures r.Success? ==> i < r.next <= |tokens|
    decreases |tokens| - i, 2
  {
    match ParseAnd(tokens, i)
    case Failure(e) => Failure(e)
    case Success(v, j) => OrTail(tokens, v, j)
  }

  function OrTail(tokens: seq<string>, value: bool, i: nat): (r: Parse)
    requires i <= |tokens|
    ensures r.Success? ==> i <= r.next <= |tokens|
    decreases |tokens| - i, 0
  {
    if !IsOperator(tokens, i, "OR") then Success(value, i)
    else
      match ParseAnd(tokens, i + 1)
      case Failure(e) => Failure(e)
      case Success(v, j) => OrTail(tokens, value && v, j)
  }

  function ParseAnd(tokens: seq<string>, i: nat): (r: Parse)
    requires i <= |tokens|
    ensures r.Success? ==> i < r.next <= |tokens|
    decreases |tokens| - i, 1
  {
    match ParseFactor(tokens, i)
    case Failure(e) => Failure(e)
    case Success(v, j) => AndTail(tokens, v, j)
  }

  function AndTail(tokens: seq<string>, value: bool, i: nat): (r: Parse)
    requires i <= |tokens|
    ensures r.Success? ==> i <= r.next <= |tokens|
    decreases |tokens| - i, 0
  {
    if !IsOperator(tokens, i, "AND") then Success(value, i)
    else
      match ParseFactor(tokens, i + 1)
      case Failure(e) => Failure(e)
      case Success(v, j) => AndTail(tokens, value || v, j)
  }

  function ParseFactor(tokens: seq<string>, i: nat): (r: Parse)
    requires i <= |tokens|
    ensures r.Success? ==> i < r.next <= |tokens|
    decreases |tokens| - i, 0
  {
    if i == |tokens| then Failure(UnexpectedEnd)
    else if tokens[i] == "(" then
      match ParseOr(tokens, i + 1)
      case Failure(e) => Failure(e)
      case Success(v, j) =>
        if j < |tokens| && tokens[j] == ")" then Success(v, j + 1) else Failure(UnbalancedParentheses)
    else if Reserved(tokens[i]) then Failure(UnexpectedToken(tokens[i]))
    else if TakesWith(tokens, i + 1) then Success(WithIsCategoryX(tokens[i], tokens[i + 2]), i + 3)
    else Success(IdentifierIsCategoryX(tokens[i]), i + 1)
  }

  predicate TakesWith(tokens: seq<string>, i: nat) { i + 1 < |tokens| && IsOperator(tokens, i, "WITH") }

  // The parser

  method ParseOrExpression(tokens: seq<string>, start: nat) returns (r: Parse)
    requires start <= |tokens|
    ensures r == ParseOr(tokens, start)
    decreases |tokens| - start, 2
  {
    var first := ParseAndExpression(tokens, start);
    if first.Failure? { return first; }
    var value, index := first.value, first.next;
    while index < |tokens| && Upper(tokens[index]) == "OR"
      invariant start < index <= |tokens| && OrTail(tokens, value, index) == ParseOr(tokens, start)
      decreases |tokens| - index
    {
      var operand := ParseAndExpression(tokens, index + 1);
      if operand.Failure? { return operand; }
      value, index := value && operand.value, operand.next;
    }
    r := Success(value, index);
  }

  method ParseAndExpression(tokens: seq<string>, start: nat) returns (r: Parse)
    requires start <= |tokens|
    ensures r == ParseAnd(tokens, start)
    decreases |tokens| - start, 1
  {
    var first := ParseFactorExpression(tokens, start);
    if first.Failure? { return first; }
    var value, index := first.value, first.next;
    while index < |tokens| && Upper(tokens[index]) == "AND"
      invariant start < index <= |tokens| && AndTail(tokens, value, index) == ParseAnd(tokens, start)
      decreases |tokens| - index
    {
      var operand := ParseFactorExpression(tokens, index + 1);
      if operand.Failure? { return operand; }
      value, index := value || operand.value, operand.next;
    }
    r := Success(value, index);
  }

  method ParseFactorExpression(tokens: seq<string>, start: nat) returns (r: Parse)
    requires start <= |tokens|
    ensures r == ParseFactor(tokens, start)
    decreases |tokens| - start, 0
  {
    if start >= |tokens| { return Failure(UnexpectedEnd); }
    var symbol := tokens[start];
    if symbol == "(" {
      var inner := ParseOrExpression(tokens, start + 1);
      if inner.Failure? { return inner; }
      if inner.next >= |tokens| || tokens[inner.next] != ")" { return Failure(UnbalancedParentheses); }
      return Success(inner.value, inner.next + 1);
    }
    if symbol == "AND" || symbol == "OR" || symbol == "WITH" || symbol == ")" {
      return Failure(UnexpectedToken(symbol));
    }
    var next := start + 1;
    if next + 1 < |tokens| && Upper(tokens[next]) == "WITH" {
      return Success(WithIsCategoryX(symbol, tokens[next + 1]), next + 2);
    }
    r := Success(IdentifierIsCategoryX(symbol), next);
  }

  /** The verdict on the licence tokens alone, for token lists the grammar leaves unread. */
  predicate AnyTokenIsCategoryX(tokens: seq<string>) {
    exists i :: 0 <= i < |tokens| && Upper(tokens[i]) !in {"AND", "OR", "WITH"}
      && tokens[i] != "(" && tokens[i] != ")" && IdentifierIsCategoryX(tokens[i])
  }

  function Verdict(tokens: seq<string>): Result<bool, ParseError> {
    if tokens == [] then Ok(false)
    else
      match ParseOr(tokens, 0)
      case Failure(e) => Err(e)
      case Success(v, n) => if n == |tokens| then Ok(v) else Ok(AnyTokenIsCategoryX(tokens))
  }

  method SpdxExpressionIsCategoryX(tokens: seq<string>) returns (r: Result<bool, ParseError>)
    ensures r == Verdict(tokens)
  {
    if tokens == [] { return Ok(false); }
    var parsed := ParseOrExpression(tokens, 0);
    if parsed.Failure? { return Err(parsed.error); }
    if parsed.next != |tokens| { return Ok(AnyTokenIsCategoryX(tokens)); }
    r := Ok(parsed.value);
  }

  // What an expression means

  datatype Licence = Licence(id: string, exception: Option<string>)

  /** Operators keep their spelling: the parser reads them in any letter case. */
  datatype Expr =
    | One(id: string)
    | With(id: string, op: string, exception: string)
    | And(left: Expr, op: string, right: Expr)
    | Or(left: Expr, op: string, right: Expr)
    | Paren(inner: Expr)

  predicate WellSpelled(e: Expr) {
    match e
    case One(id) => id != "(" && !Reserved(id)
    case With(id, op, _) => id != "(" && !Reserved(id) && Upper(op) == "WITH"
    case And(l, op, r) => Upper(op) == "AND" && WellSpelled(l) && WellSpelled(r)
    case Or(l, op, r) => Upper(op) == "OR" && WellSpelled(l) && WellSpelled(r)
    case Paren(x) => WellSpelled(x)
  }

  /** No alternative stands directly under a conjunction, so that printing
      without adding brackets keeps WITH above AND above OR. */
  predicate Precedence(e: Expr) {
    match e
    case One(_) => true
    case With(_, _, _) => true
    case And(l, _, r) => !l.Or? && !r.Or? && Precedence(l) && Precedence(r)
    case Or(l, _, r) => Precedence(l) && Precedence(r)
    case Paren(x) => Precedence(x)
  }

  function Print(e: Expr): (tokens: seq<string>)
    ensures tokens != []
  {
    match e
    case One(id) => [id]
    case With(id, op, x) => [id, op, x]
    case And(l, op, r) => Print(l) + [op] + Print(r)
    case Or(l, op, r) => Print(l) + [op] + Print(r)
    case Paren(x) => ["("] + Print(x) + [")"]
  }

  /** The choices an expression offers: each lists licences that apply together. */
  function Alternatives(e: Expr): seq<seq<Licence>> {
    match e
    case One(id) => [[Licence(id, None)]]
    case With(id, _, x) => [[Licence(id, Some(x))]]
    case And(l, _, r) => Cross(Alternatives(l), Alternatives(r))
    case Or(l, _, r) => Alternatives(l) + Alternatives(r)
    case Paren(x) => Alternatives(x)
  }

  function Cross(xs: seq<seq<Licence>>, ys: seq<seq<Licence>>): seq<seq<Licence>> {
    if xs == [] then [] else Prefix(xs[0], ys) + Cross(xs[1..], ys)
  }

  function Prefix(x: seq<Licence>, ys: seq<seq<Licence>>): seq<seq<Licence>> {
    if ys == [] then [] else [x + ys[0]] + Prefix(x, ys[1..])
  }

  predicate LicenceIsCategoryX(l: Licence) {
    match l.exception
    case None => IdentifierIsCategoryX(l.id)
    case Some(x) => WithIsCategoryX(l.id, x)
  }

  predicate Tainted(alternative: seq<Licence>) {
    exists i :: 0 <= i < |alternative| && LicenceIsCategoryX(alternative[i])
  }

  /** Every way to satisfy the expression involves a Category X licence. */
  predicate AllTainted(alternatives: seq<seq<Licence>>) {
    forall i :: 0 <= i < |alternatives| ==> Tainted(alternatives[i])
  }

  /** The parser's way to the same answer, without expanding alternatives. */
  predicate Eval(e: Expr) {
    match e
    case One(id) => IdentifierIsCategoryX(id)
    case With(id, _, x) => WithIsCategoryX(id, x)
    case And(l, _, r) => Eval(l) || Eval(r)
    case Or(l, _, r) => Eval(l) && Eval(r)
    case Paren(x) => Eval(x)
  }

  lemma {:induction false} PrefixTainted(x: seq<Licence>, ys: seq<seq<Licence>>)
    ensures |Prefix(x, ys)| == |ys|
    ensures AllTainted(Prefix(x, ys)) <==> ys == [] || Tainted(x) || AllTainted(ys)
  {
    if ys != [] {
      PrefixTainted(x, ys[1..]);
      TaintedConcat(x, ys[0]);
      AllTaintedConcat([x + ys[0]], Prefix(x, ys[1..]));
      AllTaintedConcat([ys[0]], ys[1..]);
      assert ys == [ys[0]] + ys[1..];
      AllTaintedOne(x + ys[0]);
      AllTaintedOne(ys[0]);
    }
  }

  lemma AllTaintedOne(x: seq<Licence>)
    ensures AllTainted([x]) <==> Tainted(x)
  {
    assert [x][0] == x;
  }

  lemma TaintedConcat(x: seq<Licence>, y: seq<Licence>)
    ensures Tainted(x + y) <==> Tainted(x) || Tainted(y)
  {
    if Tainted(x) {
      var i :| 0 <= i < |x| && LicenceIsCategoryX(x[i]);
      assert LicenceIsCategoryX((x + y)[i]);
    }
    if Tainted(y) {
      var i :| 0 <= i < |y| && LicenceIsCategoryX(y[i]);
      assert LicenceIsCategoryX((x + y)[|x| + i]);
    }
  }

  lemma AllTaintedConcat(xs: seq<seq<Licence>>, ys: seq<seq<Licence>>)
    ensures AllTainted(xs + ys) <==> AllTainted(xs) && AllTainted(ys)
  {
    if AllTainted(xs + ys) {
      forall i | 0 <= i < |xs| ensures Tainted(xs[i]) { assert Tainted((xs + ys)[i]); }
      forall i | 0 <= i < |ys| ensures Tainted(ys[i]) { assert Tainted((xs + ys)[|xs| + i]); }
    }
  }

  lemma {:induction false} CrossTainted(xs: seq<seq<Licence>>, ys: seq<seq<Licence>>)
    requires ys != []
    ensures xs != [] ==> Cross(xs, ys) != []
    ensures AllTainted(Cross(xs, ys)) <==> AllTainted(xs) || AllTainted(ys) || xs == []
  {
    if xs != [] {
      CrossTainted(xs[1..], ys);
      PrefixTainted(xs[0], ys);
      AllTaintedConcat(Prefix(xs[0], ys), Cross(xs[1..], ys));
      AllTaintedConcat([xs[0]], xs[1..]);
      AllTaintedOne(xs[0]);
      assert xs == [xs[0]] + xs[1..];
    }
  }

  lemma {:induction false} EvalIsAllTainted(e: Expr)
    ensures Alternatives(e) != []
    ensures Eval(e) <==> AllTainted(Alternatives(e))
  {
    match e
    case One(id) => AllTaintedOne([Licence(id, None)]); assert [Licence(id, None)][0] == Licence(id, None);
    case With(id, _, x) => AllTaintedOne([Licence(id, Some(x))]); assert [Licence(id, Some(x))][0] == Licence(id, Some(x));
    case And(l, _, r) =>
      EvalIsAllTainted(l);
      EvalIsAllTainted(r);
      CrossTainted(Alternatives(l), Alternatives(r));
    case Or(l, _, r) =>
      EvalIsAllTainted(l);
      EvalIsAllTainted(r);
      AllTaintedConcat(Alternatives(l), Alternatives(r));
    case Paren(x) => EvalIsAllTainted(x);
  }

  // Printed expressions are read back

  ghost predicate At(tokens: seq<string>, i: nat, part: seq<string>) {
    i + |part| <= |tokens| && forall k :: 0 <= k < |part| ==> tokens[i + k] == part[k]
  }

  lemma AtConcat(tokens: seq<string>, i: nat, a: seq<string>, b: seq<string>)
    requires At(tokens, i, a + b)
    ensures At(tokens, i, a) && At(tokens, i + |a|, b)
  {
    forall k | 0 <= k < |a| ensures tokens[i + k] == a[k] { assert (a + b)[k] == a[k]; }
    forall k | 0 <= k < |b| ensures tokens[i + |a| + k] == b[k] {
      assert (a + b)[|a| + k] == b[k] && tokens[i + (|a| + k)] == (a + b)[|a| + k];
    }
  }

  function AndFrom(tokens: seq<string>, value: bool, i: nat): Parse
    requires i <= |tokens|
  {
    match ParseFactor(tokens, i)
    case Failure(e) => Failure(e)
    case Success(v, j) => AndTail(tokens, value || v, j)
  }

  function OrFrom(tokens: seq<string>, value: bool, i: nat): Parse
    requires i <= |tokens|
  {
    match ParseAnd(tokens, i)
    case Failure(e) => Failure(e)
    case Success(v, j) => OrTail(tokens, value && v, j)
  }

  lemma AtBinary(tokens: seq<string>, i: nat, e: Expr)
    requires (e.And? || e.Or?) && At(tokens, i, Print(e))
    ensures At(tokens, i, Print(e.left)) && At(tokens, i + |Print(e.left)| + 1, Print(e.right))
    ensures i + |Print(e.left)| < |tokens| && tokens[i + |Print(e.left)|] == e.op
  {
    var l, r := Print(e.left), Print(e.right);
    AtConcat(tokens, i, l + [e.op], r);
    AtConcat(tokens, i, l, [e.op]);
    assert tokens[i + |l| + 0] == [e.op][0];
  }

  lemma AtParen(tokens: seq<string>, i: nat, e: Expr)
    requires e.Paren? && At(tokens, i, Print(e))
    ensures At(tokens, i + 1, Print(e.inner)) && tokens[i] == "(" && tokens[i + |Print(e)| - 1] == ")"
  {
    var x := Print(e.inner);
    AtConcat(tokens, i, ["("] + x, [")"]);
    AtConcat(tokens, i, ["("], x);
    assert tokens[i + 0] == ["("][0] && tokens[i + 1 + |x| + 0] == [")"][0];
  }

  /** One turn of each loop. */
  lemma TailsContinue(tokens: seq<string>, value: bool, i: nat)
    requires i < |tokens|
    ensures IsOperator(tokens, i, "AND") ==>
              AndTail(tokens, value, i) == AndFrom(tokens, value, i + 1) && !TakesWith(tokens, i)
    ensures IsOperator(tokens, i, "OR") ==>
              && OrTail(tokens, value, i) == OrFrom(tokens, value, i + 1)
              && !TakesWith(tokens, i) && !IsOperator(tokens, i, "AND")
  {
    assert "AND"[0] != "OR"[0] && "AND"[0] != "WITH"[0] && "OR"[0] != "WITH"[0];
  }

  lemma {:induction false} FactorReadsBack(tokens: seq<string>, i: nat, e: Expr)
    requires WellSpelled(e) && Precedence(e) && !e.And? && !e.Or?
    requires At(tokens, i, Print(e)) && !TakesWith(tokens, i + |Print(e)|)
    ensures ParseFactor(tokens, i) == Success(Eval(e), i + |Print(e)|)
    decreases e, 0
  {
    match e
    case One(id) => assert tokens[i + 0] == [id][0];
    case With(id, op, x) =>
      var s := [id, op, x];
      assert tokens[i + 0] == s[0] && tokens[i + 1] == s[1] && tokens[i + 2] == s[2];
    case Paren(x) =>
      AtParen(tokens, i, e);
      assert Upper(")") == ")" by { assert Upper("") == ""; }
      OrReadsBack(tokens, i + 1, x, true);
  }

  lemma {:induction false} AndReadsBack(tokens: seq<string>, i: nat, e: Expr, value: bool)
    requires WellSpelled(e) && Precedence(e) && !e.Or?
    requires At(tokens, i, Print(e)) && !TakesWith(tokens, i + |Print(e)|)
    ensures AndFrom(tokens, value, i) == AndTail(tokens, value || Eval(e), i + |Print(e)|)
    decreases e, 1
  {
    if e.And? {
      var n := i + |Print(e.left)|;
      AtBinary(tokens, i, e);
      TailsContinue(tokens, value || Eval(e.left), n);
      AndReadsBack(tokens, i, e.left, value);
      AndReadsBack(tokens, n + 1, e.right, value || Eval(e.left));
      assert n + 1 + |Print(e.right)| == i + |Print(e)|;
    } else {
      FactorReadsBack(tokens, i, e);
    }
  }

  lemma {:induction false} OrReadsBack(tokens: seq<string>, i: nat, e: Expr, value: bool)
    requires WellSpelled(e) && Precedence(e) && At(tokens, i, Print(e))
    requires !TakesWith(tokens, i + |Print(e)|) && !IsOperator(tokens, i + |Print(e)|, "AND")
    ensures OrFrom(tokens, value, i) == OrTail(tokens, value && Eval(e), i + |Print(e)|)
    decreases e, 2
  {
    if e.Or? {
      var n := i + |Print(e.left)|;
      AtBinary(tokens, i, e);
      TailsContinue(tokens, value && Eval(e.left), n);
      OrReadsBack(tokens, i, e.left, value);
      OrReadsBack(tokens, n + 1, e.right, value && Eval(e.left));
      assert n + 1 + |Print(e.right)| == i + |Print(e)|;
    } else {
      AndReadsBack(tokens, i, e, false);
    }
  }

  /** A printed expression is read completely, and the verdict is true exactly
      when each of its alternatives involves a Category X licence. */
  lemma VerdictOfExpression(e: Expr)
    requires WellSpelled(e) && Precedence(e)
    ensures ParseOr(Print(e), 0) == Success(Eval(e), |Print(e)|)
    ensures Verdict(Print(e)) == Ok(AllTainted(Alternatives(e)))
  {
    var tokens := Print(e);
    assert At(tokens, 0, tokens);
    OrReadsBack(tokens, 0, e, true);
    assert ParseOr(tokens, 0) == OrFrom(tokens, true, 0);
    EvalIsAllTainted(e);
  }

  /** The same for any expression tree, bracketed where precedence asks for it. */
  lemma VerdictOfTree(e: Expr)
    requires WellSpelled(e)
    ensures Verdict(Print(Bracketed(e))) == Ok(AllTainted(Alternatives(e)))
  {
    BracketingKeepsMeaning(e);
    VerdictOfExpression(Bracketed(e));
  }

  function Bracketed(e: Expr): Expr
    decreases e, 0
  {
    match e
    case One(_) => e
    case With(_, _, _) => e
    case And(l, op, r) => And(Operand(l), op, Operand(r))
    case Or(l, op, r) => Or(Bracketed(l), op, Bracketed(r))
    case Paren(x) => Paren(Bracketed(x))
  }

  function Operand(e: Expr): Expr
    decreases e, 1
  {
    if e.Or? then Paren(Bracketed(e)) else Bracketed(e)
  }

  lemma {:induction false} BracketingKeepsMeaning(e: Expr)
    ensures Alternatives(Bracketed(e)) == Alternatives(e)
    ensures WellSpelled(e) ==> WellSpelled(Bracketed(e))
    ensures Precedence(Bracketed(e)) && (Bracketed(e).Or? <==> e.Or?)
  {
    match e
    case One(_) =>
    case With(_, _, _) =>
    case And(l, _, r) => BracketingKeepsMeaning(l); BracketingKeepsMeaning(r);
    case Or(l, _, r) => BracketingKeepsMeaning(l); BracketingKeepsMeaning(r);
    case Paren(x) => BracketingKeepsMeaning(x);
  }

  // Whatever the parser reads is a printed expression

  ghost predicate Reads(e: Expr, tokens: seq<string>, i: nat, j: nat, value: bool) {
    i <= j <= |tokens| && WellSpelled(e) && Precedence(e) && Print(e) == tokens[i..j] && Eval(e) == value
  }

  lemma {:induction false} ReadFactor(tokens: seq<string>, i: nat) returns (e: Expr)
    requires i <= |tokens| && ParseFactor(tokens, i).Success?
    ensures Reads(e, tokens, i, ParseFactor(tokens, i).next, ParseFactor(tokens, i).value) && !e.Or?
    decreases |tokens| - i, 0
  {
    if tokens[i] == "(" {
      var inner := ReadOr(tokens, i + 1);
      e := Paren(inner);
      var j := ParseOr(tokens, i + 1).next;
      assert tokens[i..j + 1] == ["("] + tokens[i + 1..j] + [")"];
    } else if TakesWith(tokens, i + 1) {
      e := With(tokens[i], tokens[i + 1], tokens[i + 2]);
    } else {
      e := One(tokens[i]);
    }
  }

  lemma {:induction false} ReadAndTail(tokens: seq<string>, left: Expr, i: nat, j: nat, value: bool) returns (e: Expr)
    requires Reads(left, tokens, i, j, value) && !left.Or? && AndTail(tokens, value, j).Success?
    ensures Reads(e, tokens, i, AndTail(tokens, value, j).next, AndTail(tokens, value, j).value) && !e.Or?
    decreases |tokens| - j, 0
  {
    e := left;
    if IsOperator(tokens, j, "AND") {
      var right := ReadFactor(tokens, j + 1);
      var k := ParseFactor(tokens, j + 1).next;
      assert tokens[i..k] == tokens[i..j] + [tokens[j]] + tokens[j + 1..k];
      e := ReadAndTail(tokens, And(left, tokens[j], right), i, k, value || Eval(right));
    }
  }

  lemma {:induction false} ReadAnd(tokens: seq<string>, i: nat) returns (e: Expr)
    requires i <= |tokens| && ParseAnd(tokens, i).Success?
    ensures Reads(e, tokens, i, ParseAnd(tokens, i).next, ParseAnd(tokens, i).value)
    decreases |tokens| - i, 1
  {
    var first := ReadFactor(tokens, i);
    e := ReadAndTail(tokens, first, i, ParseFactor(tokens, i).next, Eval(first));
  }

  lemma {:induction false} ReadOrTail(tokens: seq<string>, left: Expr, i: nat, j: nat, value: bool) returns (e: Expr)
    requires Reads(left, tokens, i, j, value) && OrTail(tokens, value, j).Success?
    ensures Reads(e, tokens, i, OrTail(tokens, value, j).next, OrTail(tokens, value, j).value)
    decreases |tokens| - j, 0
  {
    e := left;
    if IsOperator(tokens, j, "OR") {
      var right := ReadAnd(tokens, j + 1);
      var k := ParseAnd(tokens, j + 1).next;
      assert tokens[i..k] == tokens[i..j] + [tokens[j]] + tokens[j + 1..k];
      e := ReadOrTail(tokens, Or(left, tokens[j], right), i, k, value && Eval(right));
    }
  }

  lemma {:induction false} ReadOr(tokens: seq<string>, i: nat) returns (e: Expr)
    requires i <= |tokens| && ParseOr(tokens, i).Success?
    ensures Reads(e, tokens, i, ParseOr(tokens, i).next, ParseOr(tokens, i).value)
    decreases |tokens| - i, 2
  {
    var first := ReadAnd(tokens, i);
    e := ReadOrTail(tokens, first, i, ParseAnd(tokens, i).next, Eval(first));
  }

  ghost predicate IsExpression(tokens: seq<string>) {
    exists e :: WellSpelled(e) && Precedence(e) && Print(e) == tokens
  }

  /** The parser consumes a token list completely exactly when it is an
      expression; any other non-empty list raises, or falls back to the bare scan. */
  lemma ParserAcceptsExpressions(tokens: seq<string>)
    ensures IsExpression(tokens) <==> ParseOr(tokens, 0).Success? && ParseOr(tokens, 0).next == |tokens|
    ensures !IsExpression(tokens) && tokens != [] ==>
              Verdict(tokens).Err? || Verdict(tokens) == Ok(AnyTokenIsCategoryX(tokens))
  {
    if ParseOr(tokens, 0).Success? && ParseOr(tokens, 0).next == |tokens| {
      var e := ReadOr(tokens, 0);
      assert Print(e) == tokens[0..|tokens|] == tokens;
    }
    if IsExpression(tokens) {
      var e :| WellSpelled(e) && Precedence(e) && Print(e) == tokens;
      VerdictOfExpression(e);
    }
  }
}
