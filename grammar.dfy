/** The recursive-descent grammar as functions over the token queue: each `ParseX(ts)` says
    what the parser method of the same name produces from the queue `ts` and which part of
    the queue it leaves behind, or which error stops the parse.

    Precedence, loosest first: assignment, object literal, logical, unary, comparison,
    additive, multiplicative, power, call, member, primary. Termination is by the length of
    the queue and, between functions that hand the same queue down the ladder, by a rank. */
module Grammar {
  import opened Wrappers
  import opened Ast
  import L = Lexer

  /** Why a parse stops. */
  datatype ParseError =
    | ExpectFailed(expected: L.TokenType, found: L.Token)  // `expect` met the wrong token and exits
    | UnexpectedToken(found: L.Token)                     // no primary expression starts here
    | ConstWithoutInit                                    // a constant declarator without `=`
    | ParamNotIdentifier                                  // a function parameter that is not a name
    | DotWithoutIdentifier                                // `.` followed by something other than a name
    | QueueEmpty                                          // the queue was read after its EOF was eaten
    | UnboundValue(key: string)                           // `{ k }` before any `key: value` entry
    | BadNumber(text: string)                             // a number token the conversion refuses

  /** A parse outcome: the node and the rest of the queue, or an error. */
  datatype PResult<T> = POk(node: T, rest: seq<L.Token>) | PErr(error: ParseError)
  {
    predicate IsFailure() { PErr? }

    function PropagateFailure<U>(): PResult<U>
      requires PErr?
    {
      PErr(error)
    }

    function Extract(): PResult<T>
      requires POk?
    {
      this
    }
  }

  // ---- Queue primitives -------------------------------------------------------------

  /** `expect`: pops the front token, which must be of kind `kind`. */
  function Expect(ts: seq<L.Token>, kind: L.TokenType): (r: PResult<L.Token>)
    ensures r.POk? <==> |ts| > 0 && ts[0].kind == kind
    ensures r.POk? ==> r.node == ts[0] && r.rest == ts[1..]
    ensures |ts| == 0 ==> r == PErr(QueueEmpty)
    ensures |ts| > 0 && ts[0].kind != kind ==> r == PErr(ExpectFailed(kind, ts[0]))
  {
    if |ts| == 0 then PErr(QueueEmpty)
    else if ts[0].kind != kind then PErr(ExpectFailed(kind, ts[0]))
    else POk(ts[0], ts[1..])
  }

  /** True when the queue is non-empty and its front token has kind `kind`. */
  predicate FrontIs(ts: seq<L.Token>, kind: L.TokenType)
  {
    |ts| > 0 && ts[0].kind == kind
  }

  // ---- Numbers ------------------------------------------------------------------------

  predicate AllDigits(s: string)
  {
    forall i :: 0 <= i < |s| ==> L.IsDigit(s[i])
  }

  /** The value of a decimal digit string (leading zeros allowed, as `int()` allows them). */
  function DigitsValue(s: string): (n: nat)
    requires AllDigits(s)
    ensures |s| == 0 ==> n == 0
    decreases |s|
  {
    if |s| == 0 then 0 else DigitsValue(s[..|s| - 1]) * 10 + (s[|s| - 1] as int - '0' as int)
  }

  /** `int(text)` for an Int token: a non-empty run of digits. */
  function IntValue(text: string): Result<int, ParseError>
  {
    if |text| > 0 && AllDigits(text) then Ok(DigitsValue(text)) else Err(BadNumber(text))
  }

  /** `float(text)` for a Float token, kept as its integer part: digits, one dot, digits,
      with at least one digit in all. */
  function FloatValue(text: string): Result<int, ParseError>
  {
    if exists k :: 0 <= k < |text| && text[k] == '.' && AllDigits(text[..k]) && AllDigits(text[k + 1..]) && |text| > 1 then
      var k :| 0 <= k < |text| && text[k] == '.' && AllDigits(text[..k]) && AllDigits(text[k + 1..]) && |text| > 1;
      Ok(DigitsValue(text[..k]))
    else Err(BadNumber(text))
  }

  // ---- Statements ------------------------------------------------------------------------

  /** `produceAST`'s loop: statements until the front token is EOF, appended to `body`. */
  function ParseProgramBody(ts: seq<L.Token>, body: seq<Stmt>): (r: PResult<seq<Stmt>>)
    ensures r.POk? ==> |r.rest| <= |ts| && FrontIs(r.rest, L.EOF)
    decreases |ts|
  {
    if |ts| == 0 then PErr(QueueEmpty)
    else if ts[0].kind == L.EOF then POk(body, ts)
    else
      var s :- ParseStmt(ts);
      ParseProgramBody(s.rest, body + [s.node])
  }

  /** The outcome of `produceAST` on a source text. */
  datatype ProduceResult = Parsed(program: Program) | LexFailed(lexError: L.LexError) | ParseFailed(parseError: ParseError)

  function Produce(source: string): ProduceResult
  {
    match L.Lex(source)
    case Failure(e) => LexFailed(e)
    case Tokens(ts) =>
      match ParseProgramBody(ts, [])
      case PErr(e) => ParseFailed(e)
      case POk(body, _) => Parsed(Program(0, |source|, body))
  }

  /** `parse_stmt`: dispatch on the front token. */
  function ParseStmt(ts: seq<L.Token>): (r: PResult<Stmt>)
    ensures r.POk? ==> |r.rest| < |ts|
    decreases |ts|, 59
  {
    if |ts| == 0 then PErr(QueueEmpty)
    else if ts[0].kind == L.If then ParseIf(ts)
    else if ts[0].kind == L.While then ParseWhile(ts)
    else if ts[0].kind in {L.Declare, L.Const, L.Var} then ParseVarDecl(ts)
    else if ts[0].kind == L.Def then ParseFnDecl(ts)
    else ParseExprStmt(ts)
  }

  /** `parse_fn_declaration`: `def name(params) { body }`; every parameter must be a name. */
  function ParseFnDecl(ts: seq<L.Token>): (r: PResult<Stmt>)
    requires |ts| > 0
    ensures r.POk? ==> |r.rest| < |ts|
    ensures r.POk? ==> r.node.FnDecl?
    decreases |ts|, 58
  {
    var id :- Expect(ts[1..], L.Identifier);
    var args :- ParseArgs(id.rest);
    if exists i :: 0 <= i < |args.node| && !args.node[i].Identifier? then PErr(ParamNotIdentifier)
    else
      var open :- Expect(args.rest, L.OpenBrace);
      var body :- ParseBlock(open.rest);
      var close :- Expect(body.rest, L.CloseBrace);
      POk(FnDecl(id.node.value, ParamNames(args.node), body.node), close.rest)
  }

  function ParamNames(args: seq<Expr>): (names: seq<string>)
    requires forall i :: 0 <= i < |args| ==> args[i].Identifier?
    ensures |names| == |args| && forall i :: 0 <= i < |args| ==> names[i] == args[i].name
  {
    seq(|args|, i requires 0 <= i < |args| => args[i].name)
  }

  /** The keyword part of `parse_var_declaration`: an optional `const`, then `declare` or
      `var`. After a `const` not followed by one of those, the next token is dropped (with a
      message) and whatever follows is taken as the keyword, eating one more token if it is
      not `declare`/`var`. Returns the declaration kind and the queue after the keyword. */
  function DeclHead(ts: seq<L.Token>): (r: PResult<DeclKind>)
    requires |ts| > 0
    ensures r.POk? ==> |r.rest| < |ts|
  {
    var keyed :=
      if ts[0].kind != L.Const then ts
      else if |ts| > 1 && ts[1].kind in {L.Declare, L.Var} then ts[1..]
      else if |ts| > 1 then ts[2..]
      else [];
    if |keyed| == 0 then PErr(QueueEmpty)
    else
      var key := keyed[0].kind;
      var kind := if key == L.Declare then DeclareKind else if key == L.Var then VarKind else OtherKind(key);
      var afterKey := if kind.OtherKind? then keyed[1..] else keyed;
      if |afterKey| == 0 then PErr(QueueEmpty) else POk(kind, afterKey[1..])
  }

  /** `parse_var_declaration`: the keyword part, then comma-separated declarators that all
      share its kind and constant flag. */
  function ParseVarDecl(ts: seq<L.Token>): (r: PResult<Stmt>)
    requires |ts| > 0
    ensures r.POk? ==> |r.rest| < |ts|
    ensures r.POk? ==> r.node.VarDecl? && r.node.constant == (ts[0].kind == L.Const)
    decreases |ts|, 58
  {
    var isConstant := ts[0].kind == L.Const;
    var head :- DeclHead(ts);
    var decls :- ParseDeclarators(head.rest, isConstant, []);
    POk(VarDecl(decls.node, head.node, isConstant), decls.rest)
  }

  /** One declarator's optional initializer: `= expr`, required when `isConstant`. */
  function ParseInit(ts: seq<L.Token>, isConstant: bool): (r: PResult<Option<Expr>>)
    ensures r.POk? ==> |r.rest| <= |ts|
    decreases |ts|, 56
  {
    if |ts| == 0 then PErr(QueueEmpty)
    else if ts[0].kind == L.Equals then
      var value :- ParseExpr(ts[1..]);
      POk(Some(value.node), value.rest)
    else if isConstant then PErr(ConstWithoutInit)
    else POk(None, ts)
  }

  /** The `while True` loop of `parse_var_declaration`, appending to `decls`. */
  function ParseDeclarators(ts: seq<L.Token>, isConstant: bool, decls: seq<Declarator>): (r: PResult<seq<Declarator>>)
    ensures r.POk? ==> |r.rest| < |ts| && |r.node| > |decls|
    decreases |ts|, 57
  {
    var id :- Expect(ts, L.Identifier);
    var init :- ParseInit(id.rest, isConstant);
    var ds := decls + [Declarator(id.node.value, init.node)];
    if |init.rest| == 0 then PErr(QueueEmpty)
    else if init.rest[0].kind == L.Comma then ParseDeclarators(init.rest[1..], isConstant, ds)
    else POk(ds, init.rest)
  }

  /** `parse_if_stmt`: `if cond { ... }`, then optionally `else if ...` or `else { ... }`. */
  function ParseIf(ts: seq<L.Token>): (r: PResult<Stmt>)
    requires |ts| > 0
    ensures r.POk? ==> |r.rest| < |ts|
    ensures r.POk? ==> r.node.If?
    decreases |ts|, 58
  {
    var cond :- ParseExpr(ts[1..]);
    var open :- Expect(cond.rest, L.OpenBrace);
    var consequent :- ParseBlock(open.rest);
    var close :- Expect(consequent.rest, L.CloseBrace);
    var alternate :- ParseElse(close.rest);
    POk(If(cond.node, consequent.node, alternate.node), alternate.rest)
  }

  /** The `else` part of `parse_if_stmt`: nothing unless the front token is `else`; after it,
      a nested `if` statement or a braced block. */
  function ParseElse(ts: seq<L.Token>): (r: PResult<Option<Stmt>>)
    ensures r.POk? ==> |r.rest| <= |ts|
    decreases |ts|, 58
  {
    if |ts| == 0 then PErr(QueueEmpty)
    else if ts[0].kind != L.Else then POk(None, ts)
    else if |ts| == 1 then PErr(QueueEmpty)
    else if ts[1].kind == L.If then
      var alternate :- ParseIf(ts[1..]);
      POk(Some(alternate.node), alternate.rest)
    else
      var open :- Expect(ts[1..], L.OpenBrace);
      var alternate :- ParseBlock(open.rest);
      var close :- Expect(alternate.rest, L.CloseBrace);
      POk(Some(alternate.node), close.rest)
  }


  /** `parse_while_loop`: `while cond { ... }`. */
  function ParseWhile(ts: seq<L.Token>): (r: PResult<Stmt>)
    requires |ts| > 0
    ensures r.POk? ==> |r.rest| < |ts|
    ensures r.POk? ==> r.node.While?
    decreases |ts|, 58
  {
    var cond :- ParseExpr(ts[1..]);
    var open :- Expect(cond.rest, L.OpenBrace);
    var body :- ParseBlock(open.rest);
    var close :- Expect(body.rest, L.CloseBrace);
    POk(While(cond.node, body.node), close.rest)
  }

  /** `parse_expr_statement`. */
  function ParseExprStmt(ts: seq<L.Token>): (r: PResult<Stmt>)
    ensures r.POk? ==> |r.rest| < |ts|
    ensures r.POk? ==> r.node.ExprStmt?
    decreases |ts|, 58
  {
    var e :- ParseAssignment(ts);
    POk(ExprStmt(e.node), e.rest)
  }

  /** `parse_block`'s loop: statements until `}` or EOF, neither of which is consumed,
      appended to `body`. */
  function ParseBlockBody(ts: seq<L.Token>, body: seq<Stmt>): (r: PResult<seq<Stmt>>)
    ensures r.POk? ==> |r.rest| <= |ts|
    decreases |ts|, 60
  {
    if |ts| == 0 then PErr(QueueEmpty)
    else if ts[0].kind == L.EOF || ts[0].kind == L.CloseBrace then POk(body, ts)
    else
      var s :- ParseStmt(ts);
      ParseBlockBody(s.rest, body + [s.node])
  }

  /** `parse_block`. */
  function ParseBlock(ts: seq<L.Token>): (r: PResult<Stmt>)
    ensures r.POk? ==> |r.rest| <= |ts|
    decreases |ts|, 61
  {
    var body :- ParseBlockBody(ts, []);
    POk(Block(body.node), body.rest)
  }

  // ---- Expressions ---------------------------------------------------------------------

  /** `parse_expr`. */
  function ParseExpr(ts: seq<L.Token>): (r: PResult<Expr>)
    ensures r.POk? ==> |r.rest| < |ts|
    decreases |ts|, 40
  {
    ParseAssignment(ts)
  }

  /** `parse_assignment_expr`: right-associative `target = value`. */
  function ParseAssignment(ts: seq<L.Token>): (r: PResult<Expr>)
    ensures r.POk? ==> |r.rest| < |ts|
    decreases |ts|, 39
  {
    var left :- ParseObject(ts);
    if |left.rest| == 0 then PErr(QueueEmpty)
    else if left.rest[0].kind == L.Equals then
      var value :- ParseAssignment(left.rest[1..]);
      POk(Assignment(left.node, value.node), value.rest)
    else left
  }

  /** `parse_object_expr`: an object literal, or the next level down when no `{` opens one. */
  function ParseObject(ts: seq<L.Token>): (r: PResult<Expr>)
    ensures r.POk? ==> |r.rest| < |ts|
    decreases |ts|, 38
  {
    if |ts| == 0 then PErr(QueueEmpty)
    else if ts[0].kind != L.OpenBrace then ParseLogical(ts)
    else
      var props :- ParseProperties(ts[1..], None, []);
      var close :- Expect(props.rest, L.CloseBrace);
      POk(ObjectLit(props.node), close.rest)
  }

  /** The property loop of `parse_object_expr`. `value` is the loop's `value` variable, which
      keeps the last `key: value` expression across iterations (None while unassigned): a
      bare key right before `}` takes that stale value, or fails if there is none. The
      properties read so far are `props`. */
  function ParseProperties(ts: seq<L.Token>, value: Option<Expr>, props: seq<Property>): (r: PResult<seq<Property>>)
    ensures r.POk? ==> |r.rest| <= |ts|
    decreases |ts|, 37
  {
    if |ts| == 0 then PErr(QueueEmpty)
    else if ts[0].kind == L.EOF || ts[0].kind == L.CloseBrace then POk(props, ts)
    else
      var key :- Expect(ts, L.Identifier);
      var k := key.node.value;
      var afterKey := key.rest;
      if |afterKey| == 0 then PErr(QueueEmpty)
      else if afterKey[0].kind == L.Comma then
        ParseProperties(afterKey[1..], value, props + [Property(k, None)])
      else if afterKey[0].kind == L.CloseBrace then
        // `continue`: the loop then stops at this `}`
        if value.None? then PErr(UnboundValue(k)) else POk(props + [Property(k, value)], afterKey)
      else
        var colon :- Expect(afterKey, L.Colon);
        var v :- ParseExpr(colon.rest);
        var ps := props + [Property(k, Some(v.node))];
        if |v.rest| == 0 then PErr(QueueEmpty)
        else if v.rest[0].kind == L.CloseBrace then POk(ps, v.rest)
        else
          var comma :- Expect(v.rest, L.Comma);
          ParseProperties(comma.rest, Some(v.node), ps)
  }

  /** `parse_logical_expr`. */
  function ParseLogical(ts: seq<L.Token>): (r: PResult<Expr>)
    ensures r.POk? ==> |r.rest| < |ts|
    decreases |ts|, 36
  {
    var left :- ParseUnary(ts);
    LogicalTail(left.rest, left.node)
  }

  /** The loop of `parse_logical_expr`: folds `and`/`or` operands to the left. */
  function LogicalTail(ts: seq<L.Token>, left: Expr): (r: PResult<Expr>)
    ensures r.POk? ==> |r.rest| <= |ts|
    decreases |ts|, 35
  {
    if |ts| == 0 then PErr(QueueEmpty)
    else if ts[0].kind in {L.And, L.Or} then
      var right :- ParseUnary(ts[1..]);
      LogicalTail(right.rest, Logical(left, ts[0].value, right.node))
    else POk(left, ts)
  }

  /** `parse_unary_expr`: one prefix operator applied to a whole comparison. */
  function ParseUnary(ts: seq<L.Token>): (r: PResult<Expr>)
    ensures r.POk? ==> |r.rest| < |ts|
    decreases |ts|, 34
  {
    if |ts| == 0 then PErr(QueueEmpty)
    else if ts[0].kind in {L.Not, L.UnaryPlus, L.UnaryMinus} then
      var operand :- ParseComparison(ts[1..]);
      POk(Unary(ts[0].value, operand.node), operand.rest)
    else ParseComparison(ts)
  }

  const ComparisonKinds := {L.DoubleEquals, L.NotEquals, L.LessThan, L.LessThanOrEquals, L.GreaterThan, L.GreaterThanOrEquals}

  /** `parse_comparison_expr`. */
  function ParseComparison(ts: seq<L.Token>): (r: PResult<Expr>)
    ensures r.POk? ==> |r.rest| < |ts|
    decreases |ts|, 33
  {
    var left :- ParseAdditive(ts);
    ComparisonTail(left.rest, left.node)
  }

  function ComparisonTail(ts: seq<L.Token>, left: Expr): (r: PResult<Expr>)
    ensures r.POk? ==> |r.rest| <= |ts|
    decreases |ts|, 32
  {
    if |ts| == 0 then PErr(QueueEmpty)
    else if ts[0].kind in ComparisonKinds then
      var right :- ParseAdditive(ts[1..]);
      ComparisonTail(right.rest, Binary(left, ts[0].value, right.node))
    else POk(left, ts)
  }

  /** Operator tests of the arithmetic levels, made on the token's text, not its kind. */
  predicate IsAdditiveText(v: string) { v == "+" || v == "-" }
  predicate IsMultiplicativeText(v: string) { v == "/" || v == "*" || v == "%" }
  /** `v in "^"` is a substring test, so the empty text passes as well. */
  predicate IsPowerText(v: string) { v == "" || v == "^" }

  /** `parse_additive_expr`. */
  function ParseAdditive(ts: seq<L.Token>): (r: PResult<Expr>)
    ensures r.POk? ==> |r.rest| < |ts|
    decreases |ts|, 31
  {
    var left :- ParseMultiplicative(ts);
    AdditiveTail(left.rest, left.node)
  }

  function AdditiveTail(ts: seq<L.Token>, left: Expr): (r: PResult<Expr>)
    ensures r.POk? ==> |r.rest| <= |ts|
    decreases |ts|, 30
  {
    if |ts| == 0 then PErr(QueueEmpty)
    else if IsAdditiveText(ts[0].value) then
      var right :- ParseMultiplicative(ts[1..]);
      AdditiveTail(right.rest, Binary(left, ts[0].value, right.node))
    else POk(left, ts)
  }

  /** `parse_multiplicative_expr`. */
  function ParseMultiplicative(ts: seq<L.Token>): (r: PResult<Expr>)
    ensures r.POk? ==> |r.rest| < |ts|
    decreases |ts|, 29
  {
    var left :- ParsePower(ts);
    MultiplicativeTail(left.rest, left.node)
  }

  function MultiplicativeTail(ts: seq<L.Token>, left: Expr): (r: PResult<Expr>)
    ensures r.POk? ==> |r.rest| <= |ts|
    decreases |ts|, 28
  {
    if |ts| == 0 then PErr(QueueEmpty)
    else if IsMultiplicativeText(ts[0].value) then
      var right :- ParsePower(ts[1..]);
      MultiplicativeTail(right.rest, Binary(left, ts[0].value, right.node))
    else POk(left, ts)
  }

  /** `parse_power_expr`. */
  function ParsePower(ts: seq<L.Token>): (r: PResult<Expr>)
    ensures r.POk? ==> |r.rest| < |ts|
    decreases |ts|, 27
  {
    var left :- ParseCallMember(ts);
    PowerTail(left.rest, left.node)
  }

  function PowerTail(ts: seq<L.Token>, left: Expr): (r: PResult<Expr>)
    ensures r.POk? ==> |r.rest| <= |ts|
    decreases |ts|, 26
  {
    if |ts| == 0 then PErr(QueueEmpty)
    else if IsPowerText(ts[0].value) then
      var right :- ParseCallMember(ts[1..]);
      PowerTail(right.rest, Binary(left, ts[0].value, right.node))
    else POk(left, ts)
  }

  /** `parse_call_member_expr`. */
  function ParseCallMember(ts: seq<L.Token>): (r: PResult<Expr>)
    ensures r.POk? ==> |r.rest| < |ts|
    decreases |ts|, 25
  {
    var member :- ParseMember(ts);
    if |member.rest| == 0 then PErr(QueueEmpty)
    else if member.rest[0].kind == L.OpenParen then ParseCall(member.rest, member.node)
    else member
  }

  /** `parse_call_expr`: each further `(` makes the call so far the callee of a new call. */
  function ParseCall(ts: seq<L.Token>, callee: Expr): (r: PResult<Expr>)
    ensures r.POk? ==> |r.rest| < |ts|
    decreases |ts|, 24
  {
    var args :- ParseArgs(ts);
    var call := Call(callee, args.node);
    if |args.rest| == 0 then PErr(QueueEmpty)
    else if args.rest[0].kind == L.OpenParen then ParseCall(args.rest, call)
    else POk(call, args.rest)
  }

  /** `parse_args`: `(` then an argument list unless `)` follows at once, then `)`. */
  function ParseArgs(ts: seq<L.Token>): (r: PResult<seq<Expr>>)
    ensures r.POk? ==> |r.rest| < |ts|
    decreases |ts|, 23
  {
    var open :- Expect(ts, L.OpenParen);
    if |open.rest| == 0 then PErr(QueueEmpty)
    else if open.rest[0].kind == L.CloseParen then POk([], open.rest[1..])
    else
      var args :- ParseArgumentsList(open.rest);
      var close :- Expect(args.rest, L.CloseParen);
      POk(args.node, close.rest)
  }

  /** `parse_arguments_list`: comma-separated assignment-level expressions. */
  function ParseArgumentsList(ts: seq<L.Token>): (r: PResult<seq<Expr>>)
    ensures r.POk? ==> |r.rest| < |ts|
    decreases |ts|, 40
  {
    var first :- ParseAssignment(ts);
    ArgumentsTail(first.rest, [first.node])
  }

  function ArgumentsTail(ts: seq<L.Token>, args: seq<Expr>): (r: PResult<seq<Expr>>)
    ensures r.POk? ==> |r.rest| <= |ts|
    decreases |ts|, 22
  {
    if |ts| == 0 then PErr(QueueEmpty)
    else if ts[0].kind == L.Comma then
      var next :- ParseAssignment(ts[1..]);
      ArgumentsTail(next.rest, args + [next.node])
    else POk(args, ts)
  }

  /** `parse_member_expr`. */
  function ParseMember(ts: seq<L.Token>): (r: PResult<Expr>)
    ensures r.POk? ==> |r.rest| < |ts|
    decreases |ts|, 22
  {
    var obj :- ParsePrimary(ts);
    MemberTail(obj.rest, obj.node)
  }

  /** The loop of `parse_member_expr`: `.name` (not computed; the right-hand side must be an
      identifier) or `[expr]` (computed; `]` required). */
  function MemberTail(ts: seq<L.Token>, obj: Expr): (r: PResult<Expr>)
    ensures r.POk? ==> |r.rest| <= |ts|
    decreases |ts|, 21
  {
    if |ts| == 0 then PErr(QueueEmpty)
    else if ts[0].kind == L.Dot then
      var property :- ParsePrimary(ts[1..]);
      if !property.node.Identifier? then PErr(DotWithoutIdentifier)
      else MemberTail(property.rest, Member(obj, property.node, false))
    else if ts[0].kind == L.OpenBracket then
      var property :- ParseExpr(ts[1..]);
      var close :- Expect(property.rest, L.CloseBracket);
      MemberTail(close.rest, Member(obj, property.node, true))
    else POk(obj, ts)
  }

  /** `parse_primary_expr`: a name, a literal, or a parenthesised expression, which is
      returned as it is. */
  function ParsePrimary(ts: seq<L.Token>): (r: PResult<Expr>)
    ensures r.POk? ==> |r.rest| < |ts|
    decreases |ts|, 20
  {
    if |ts| == 0 then PErr(QueueEmpty)
    else
      var t := ts[0];
      if t.kind == L.Identifier then POk(Identifier(t.value), ts[1..])
      else if t.kind == L.String then POk(StringLiteral(t.value), ts[1..])
      else if t.kind == L.Null then POk(NullLiteral, ts[1..])
      else if t.kind == L.Int then
        match IntValue(t.value)
        case Ok(n) => POk(NumericLiteral(n, false), ts[1..])
        case Err(e) => PErr(e)
      else if t.kind == L.Float then
        match FloatValue(t.value)
        case Ok(n) => POk(NumericLiteral(n, true), ts[1..])
        case Err(e) => PErr(e)
      else if t.kind == L.OpenParen then
        var inner :- ParseExpr(ts[1..]);
        var close :- Expect(inner.rest, L.CloseParen);
        POk(inner.node, close.rest)
      else PErr(UnexpectedToken(t))
  }
}
