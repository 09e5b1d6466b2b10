/** The parser object: a token queue consumed from the front by recursive-descent methods.
    Every method is proved to do what the grammar function of the same name says: on
    success it returns that function's node and leaves exactly that function's rest in the
    queue; on failure it returns that function's error. */
module Parser {
  import opened Wrappers
  import opened Ast
  import L = Lexer
  import G = Grammar

  type Outcome<T> = Result<T, G.ParseError>

  /** The outcome `r` and the queue `tokens` left behind are those the grammar prescribes. */
  ghost predicate Agrees<T>(r: Outcome<T>, spec: G.PResult<T>, tokens: seq<L.Token>)
  {
    match spec
    case POk(node, rest) => r == Ok(node) && tokens == rest
    case PErr(e) => r == Err(e)
  }

  class Parser {
    /** The token queue; `eat` pops its front. */
    var tokens: seq<L.Token>
    /** The length of the source text of the last `produceAST`. */
    var length: nat

    constructor()
      ensures tokens == [] && length == 0
    {
      tokens := [];
      length := 0;
    }

    /** `not_eof`: reads the front token, so an empty queue is an error. */
    method NotEof() returns (r: Outcome<bool>)
      ensures |tokens| == 0 ==> r == Err(G.QueueEmpty)
      ensures |tokens| > 0 ==> r == Ok(tokens[0].kind != L.EOF)
    {
      if |tokens| == 0 {
        return Err(G.QueueEmpty);
      }
      return Ok(tokens[0].kind != L.EOF);
    }

    /** `at`: the front token. */
    method At() returns (r: Outcome<L.Token>)
      ensures |tokens| == 0 ==> r == Err(G.QueueEmpty)
      ensures |tokens| > 0 ==> r == Ok(tokens[0])
    {
      if |tokens| == 0 {
        return Err(G.QueueEmpty);
      }
      return Ok(tokens[0]);
    }

    /** `eat`: pops and returns the front token. Popping an empty queue fails in the same way
        as reading its front, so every caller first reads the front with `At`. */
    method Eat() returns (prev: L.Token)
      requires |tokens| > 0
      modifies this
      ensures prev == old(tokens)[0] && tokens == old(tokens)[1..]
      ensures length == old(length)
    {
      prev := tokens[0];
      tokens := tokens[1..];
    }

    /** `expect`: pops the front token, which must be of kind `kind`. */
    method Expect(kind: L.TokenType) returns (r: Outcome<L.Token>)
      modifies this
      ensures Agrees(r, G.Expect(old(tokens), kind), tokens)
      ensures length == old(length)
    {
      var front :- At();
      var prev := Eat();
      if prev.kind != kind {
        return Err(G.ExpectFailed(kind, prev));
      }
      return Ok(prev);
    }

    /** `produceAST`: tokenizes the source, then parses statements until EOF. */
    method ProduceAST(sourceCode: string) returns (r: G.ProduceResult)
      modifies this
      ensures r == G.Produce(sourceCode)
    {
      var lexed := L.Tokenize(sourceCode);
      if lexed.Failure? {
        return G.LexFailed(lexed.error);
      }
      tokens := lexed.tokens;
      length := |sourceCode|;
      var body: seq<Stmt> := [];
      while true
        invariant G.ParseProgramBody(lexed.tokens, []) == G.ParseProgramBody(tokens, body)
        invariant length == |sourceCode|
        decreases |tokens|
      {
        var notEof := NotEof();
        if notEof.Err? {
          return G.ParseFailed(notEof.error);
        }
        if !notEof.value {
          break;
        }
        var stmt := ParseStmt();
        if stmt.Err? {
          return G.ParseFailed(stmt.error);
        }
        body := body + [stmt.value];
      }
      return G.Parsed(Program(0, length, body));
    }

    /** `parse_stmt`. */
    method ParseStmt() returns (r: Outcome<Stmt>)
      modifies this
      ensures Agrees(r, G.ParseStmt(old(tokens)), tokens)
      ensures length == old(length)
      decreases |tokens|, 59
    {
      var front :- At();
      if front.kind == L.If {
        r := ParseIf();
      } else if front.kind == L.While {
        r := ParseWhile();
      } else if front.kind in {L.Declare, L.Const, L.Var} {
        r := ParseVarDecl();
      } else if front.kind == L.Def {
        r := ParseFnDecl();
      } else {
        r := ParseExprStmt();
      }
    }

    /** `parse_fn_declaration`. */
    method ParseFnDecl() returns (r: Outcome<Stmt>)
      requires |tokens| > 0
      modifies this
      ensures Agrees(r, G.ParseFnDecl(old(tokens)), tokens)
      ensures length == old(length)
      decreases |tokens|, 58
    {
      var def := Eat();
      var identifier :- Expect(L.Identifier);
      var args :- ParseArgs();
      var params: seq<string> := [];
      for i := 0 to |args|
        invariant forall j :: 0 <= j < i ==> args[j].Identifier?
        invariant params == G.ParamNames(args[..i])
      {
        if !args[i].Identifier? {
          return Err(G.ParamNotIdentifier);
        }
        params := params + [args[i].name];
      }
      assert args[..|args|] == args;
      var open :- Expect(L.OpenBrace);
      var body :- ParseBlock();
      var close :- Expect(L.CloseBrace);
      return Ok(FnDecl(identifier.value, params, body));
    }

    /** `parse_var_declaration`. */
    method ParseVarDecl() returns (r: Outcome<Stmt>)
      requires |tokens| > 0
      modifies this
      ensures Agrees(r, G.ParseVarDecl(old(tokens)), tokens)
      ensures length == old(length)
      decreases |tokens|, 58
    {
      var isConstant := tokens[0].kind == L.Const;
      var kind :- DeclHead();
      ghost var afterHead := tokens;
      var declarations: seq<Declarator> := [];
      while true
        invariant |tokens| <= |afterHead| < |old(tokens)| && length == old(length)
        invariant G.ParseDeclarators(afterHead, isConstant, []) == G.ParseDeclarators(tokens, isConstant, declarations)
        decreases |tokens|
      {
        var identifier :- Expect(L.Identifier);
        var init :- ParseInit(isConstant);
        declarations := declarations + [Declarator(identifier.value, init)];
        var after :- At();
        if after.kind != L.Comma {
          break;
        }
        var comma := Eat();
      }
      return Ok(VarDecl(declarations, kind, isConstant));
    }

    /** The keyword part of `parse_var_declaration`. */
    method DeclHead() returns (r: Outcome<DeclKind>)
      requires |tokens| > 0
      modifies this
      ensures Agrees(r, G.DeclHead(old(tokens)), tokens)
      ensures length == old(length)
    {
      var first := tokens[0];
      if first.kind == L.Const {
        var constKeyword := Eat();
        var next :- At();
        if next.kind !in {L.Declare, L.Var} {
          var dropped := Eat();
        }
      }
      var key :- At();
      var kind;
      if key.kind == L.Declare {
        kind := DeclareKind;
      } else if key.kind == L.Var {
        kind := VarKind;
      } else {
        kind := OtherKind(key.kind);
        var dropped := Eat();
      }
      var front :- At();
      var keyword := Eat();
      return Ok(kind);
    }

    /** The optional `= expr` of one declarator. */
    method ParseInit(isConstant: bool) returns (r: Outcome<Option<Expr>>)
      modifies this
      ensures Agrees(r, G.ParseInit(old(tokens), isConstant), tokens)
      ensures length == old(length)
      decreases |tokens|, 56
    {
      var front :- At();
      if front.kind == L.Equals {
        var equals := Eat();
        var value :- ParseExpr();
        return Ok(Some(value));
      }
      if isConstant {
        return Err(G.ConstWithoutInit);
      }
      return Ok(None);
    }

    /** `parse_if_stmt`. */
    method ParseIf() returns (r: Outcome<Stmt>)
      requires |tokens| > 0
      modifies this
      ensures Agrees(r, G.ParseIf(old(tokens)), tokens)
      ensures length == old(length)
      decreases |tokens|, 58
    {
      var ifKeyword := Eat();
      var condition :- ParseExpr();
      var open :- Expect(L.OpenBrace);
      var consequent :- ParseBlock();
      var close :- Expect(L.CloseBrace);
      var alternate :- ParseElse();
      return Ok(If(condition, consequent, alternate));
    }

    /** The `else` part of `parse_if_stmt`; an `else if` parses the nested statement the same way. */
    method ParseElse() returns (r: Outcome<Option<Stmt>>)
      modifies this
      ensures Agrees(r, G.ParseElse(old(tokens)), tokens)
      ensures length == old(length)
      decreases |tokens|, 58
    {
      var front :- At();
      if front.kind != L.Else {
        return Ok(None);
      }
      var elseKeyword := Eat();
      var next :- At();
      if next.kind == L.If {
        var alternate :- ParseIf();
        return Ok(Some(alternate));
      }
      var open :- Expect(L.OpenBrace);
      var alternate :- ParseBlock();
      var close :- Expect(L.CloseBrace);
      return Ok(Some(alternate));
    }

    /** `parse_while_loop`. */
    method ParseWhile() returns (r: Outcome<Stmt>)
      requires |tokens| > 0
      modifies this
      ensures Agrees(r, G.ParseWhile(old(tokens)), tokens)
      ensures length == old(length)
      decreases |tokens|, 58
    {
      var whileKeyword := Eat();
      var condition :- ParseExpr();
      var open :- Expect(L.OpenBrace);
      var body :- ParseBlock();
      var close :- Expect(L.CloseBrace);
      return Ok(While(condition, body));
    }

    /** `parse_expr_statement`. */
    method ParseExprStmt() returns (r: Outcome<Stmt>)
      modifies this
      ensures Agrees(r, G.ParseExprStmt(old(tokens)), tokens)
      ensures length == old(length)
      decreases |tokens|, 58
    {
      var expression :- ParseAssignment();
      return Ok(ExprStmt(expression));
    }

    /** `parse_block`: statements until `}` or EOF, neither of which is consumed. */
    method ParseBlock() returns (r: Outcome<Stmt>)
      modifies this
      ensures Agrees(r, G.ParseBlock(old(tokens)), tokens)
      ensures length == old(length)
      decreases |tokens|, 61
    {
      var body: seq<Stmt> := [];
      while true
        invariant |tokens| <= |old(tokens)| && length == old(length)
        invariant G.ParseBlockBody(old(tokens), []) == G.ParseBlockBody(tokens, body)
        decreases |tokens|
      {
        var notEof :- NotEof();
        if !notEof || tokens[0].kind == L.CloseBrace {
          break;
        }
        var stmt :- ParseStmt();
        body := body + [stmt];
      }
      return Ok(Block(body));
    }

    /** `parse_expr`. */
    method ParseExpr() returns (r: Outcome<Expr>)
      modifies this
      ensures Agrees(r, G.ParseExpr(old(tokens)), tokens)
      ensures length == old(length)
      decreases |tokens|, 40
    {
      r := ParseAssignment();
    }

    /** `parse_assignment_expr`. */
    method ParseAssignment() returns (r: Outcome<Expr>)
      modifies this
      ensures Agrees(r, G.ParseAssignment(old(tokens)), tokens)
      ensures length == old(length)
      decreases |tokens|, 39
    {
      var left :- ParseObject();
      var front :- At();
      if front.kind == L.Equals {
        var equals := Eat();
        var value :- ParseAssignment();
        return Ok(Assignment(left, value));
      }
      return Ok(left);
    }

    /** `parse_object_expr`. */
    method ParseObject() returns (r: Outcome<Expr>)
      modifies this
      ensures Agrees(r, G.ParseObject(old(tokens)), tokens)
      ensures length == old(length)
      decreases |tokens|, 38
    {
      var front :- At();
      if front.kind != L.OpenBrace {
        r := ParseLogical();
        return;
      }
      var open := Eat();
      var properties: seq<Property> := [];
      var value: Option<Expr> := None;
      while true
        invariant |tokens| < |old(tokens)| && length == old(length)
        invariant G.ParseProperties(old(tokens)[1..], None, []) == G.ParseProperties(tokens, value, properties)
        decreases |tokens|
      {
        var notEof :- NotEof();
        if !notEof || tokens[0].kind == L.CloseBrace {
          break;
        }
        var key :- Expect(L.Identifier);
        var afterKey :- At();
        if afterKey.kind == L.Comma {
          var comma := Eat();
          properties := properties + [Property(key.value, None)];
          continue;
        } else if afterKey.kind == L.CloseBrace {
          if value.None? {
            return Err(G.UnboundValue(key.value));
          }
          properties := properties + [Property(key.value, value)];
          continue;
        }
        var colon :- Expect(L.Colon);
        var v :- ParseExpr();
        value := Some(v);
        properties := properties + [Property(key.value, value)];
        var after :- At();
        if after.kind != L.CloseBrace {
          var comma :- Expect(L.Comma);
        }
      }
      var close :- Expect(L.CloseBrace);
      return Ok(ObjectLit(properties));
    }

    /** `parse_logical_expr`. */
    method ParseLogical() returns (r: Outcome<Expr>)
      modifies this
      ensures Agrees(r, G.ParseLogical(old(tokens)), tokens)
      ensures length == old(length)
      decreases |tokens|, 36
    {
      var left :- ParseUnary();
      while true
        invariant |tokens| < |old(tokens)| && length == old(length)
        invariant G.ParseLogical(old(tokens)) == G.LogicalTail(tokens, left)
        decreases |tokens|
      {
        var front :- At();
        if front.kind !in {L.And, L.Or} {
          break;
        }
        var operator := Eat();
        var right :- ParseUnary();
        left := Logical(left, operator.value, right);
      }
      return Ok(left);
    }

    /** `parse_unary_expr`. */
    method ParseUnary() returns (r: Outcome<Expr>)
      modifies this
      ensures Agrees(r, G.ParseUnary(old(tokens)), tokens)
      ensures length == old(length)
      decreases |tokens|, 34
    {
      var front :- At();
      if front.kind in {L.Not, L.UnaryPlus, L.UnaryMinus} {
        var operator := Eat();
        var operand :- ParseComparison();
        return Ok(Unary(operator.value, operand));
      }
      r := ParseComparison();
    }

    /** `parse_comparison_expr`. */
    method ParseComparison() returns (r: Outcome<Expr>)
      modifies this
      ensures Agrees(r, G.ParseComparison(old(tokens)), tokens)
      ensures length == old(length)
      decreases |tokens|, 33
    {
      var left :- ParseAdditive();
      while true
        invariant |tokens| < |old(tokens)| && length == old(length)
        invariant G.ParseComparison(old(tokens)) == G.ComparisonTail(tokens, left)
        decreases |tokens|
      {
        var front :- At();
        if front.kind !in G.ComparisonKinds {
          break;
        }
        var operator := Eat();
        var right :- ParseAdditive();
        left := Binary(left, operator.value, right);
      }
      return Ok(left);
    }

    /** `parse_additive_expr`: the operator is recognised by its text. */
    method ParseAdditive() returns (r: Outcome<Expr>)
      modifies this
      ensures Agrees(r, G.ParseAdditive(old(tokens)), tokens)
      ensures length == old(length)
      decreases |tokens|, 31
    {
      var left :- ParseMultiplicative();
      while true
        invariant |tokens| < |old(tokens)| && length == old(length)
        invariant G.ParseAdditive(old(tokens)) == G.AdditiveTail(tokens, left)
        decreases |tokens|
      {
        var front :- At();
        if front.value != "+" && front.value != "-" {
          break;
        }
        var operator := Eat();
        var right :- ParseMultiplicative();
        left := Binary(left, operator.value, right);
      }
      return Ok(left);
    }

    /** `parse_multiplicative_expr`: the operator is recognised by its text. */
    method ParseMultiplicative() returns (r: Outcome<Expr>)
      modifies this
      ensures Agrees(r, G.ParseMultiplicative(old(tokens)), tokens)
      ensures length == old(length)
      decreases |tokens|, 29
    {
      var left :- ParsePower();
      while true
        invariant |tokens| < |old(tokens)| && length == old(length)
        invariant G.ParseMultiplicative(old(tokens)) == G.MultiplicativeTail(tokens, left)
        decreases |tokens|
      {
        var front :- At();
        if front.value !in ["/", "*", "%"] {
          break;
        }
        var operator := Eat();
        var right :- ParsePower();
        left := Binary(left, operator.value, right);
      }
      return Ok(left);
    }

    /** `parse_power_expr`: `value in "^"` is a substring test, true of "" and "^". */
    method ParsePower() returns (r: Outcome<Expr>)
      modifies this
      ensures Agrees(r, G.ParsePower(old(tokens)), tokens)
      ensures length == old(length)
      decreases |tokens|, 27
    {
      var left :- ParseCallMember();
      while true
        invariant |tokens| < |old(tokens)| && length == old(length)
        invariant G.ParsePower(old(tokens)) == G.PowerTail(tokens, left)
        decreases |tokens|
      {
        var front :- At();
        if !(front.value <= "^") {
          break;
        }
        var operator := Eat();
        var right :- ParseCallMember();
        left := Binary(left, operator.value, right);
      }
      return Ok(left);
    }

    /** `parse_call_member_expr`. */
    method ParseCallMember() returns (r: Outcome<Expr>)
      modifies this
      ensures Agrees(r, G.ParseCallMember(old(tokens)), tokens)
      ensures length == old(length)
      decreases |tokens|, 25
    {
      var member :- ParseMember();
      var front :- At();
      if front.kind == L.OpenParen {
        r := ParseCall(member);
        return;
      }
      return Ok(member);
    }

    /** `parse_call_expr`. */
    method ParseCall(callee: Expr) returns (r: Outcome<Expr>)
      modifies this
      ensures Agrees(r, G.ParseCall(old(tokens), callee), tokens)
      ensures length == old(length)
      decreases |tokens|, 24
    {
      var args :- ParseArgs();
      var call := Call(callee, args);
      var front :- At();
      if front.kind == L.OpenParen {
        r := ParseCall(call);
        return;
      }
      return Ok(call);
    }

    /** `parse_args`. */
    method ParseArgs() returns (r: Outcome<seq<Expr>>)
      modifies this
      ensures Agrees(r, G.ParseArgs(old(tokens)), tokens)
      ensures length == old(length)
      decreases |tokens|, 23
    {
      var open :- Expect(L.OpenParen);
      var front :- At();
      var args: seq<Expr>;
      if front.kind == L.CloseParen {
        args := [];
      } else {
        args :- ParseArgumentsList();
      }
      var close :- Expect(L.CloseParen);
      return Ok(args);
    }

    /** `parse_arguments_list`. */
    method ParseArgumentsList() returns (r: Outcome<seq<Expr>>)
      modifies this
      ensures Agrees(r, G.ParseArgumentsList(old(tokens)), tokens)
      ensures length == old(length)
      decreases |tokens|, 40
    {
      var first :- ParseAssignment();
      var args := [first];
      while true
        invariant |tokens| < |old(tokens)| && length == old(length)
        invariant G.ParseArgumentsList(old(tokens)) == G.ArgumentsTail(tokens, args)
        decreases |tokens|
      {
        var front :- At();
        if front.kind != L.Comma {
          break;
        }
        var comma := Eat();
        var next :- ParseAssignment();
        args := args + [next];
      }
      return Ok(args);
    }

    /** `parse_member_expr`. */
    method ParseMember() returns (r: Outcome<Expr>)
      modifies this
      ensures Agrees(r, G.ParseMember(old(tokens)), tokens)
      ensures length == old(length)
      decreases |tokens|, 22
    {
      var obj :- ParsePrimary();
      while true
        invariant |tokens| < |old(tokens)| && length == old(length)
        invariant G.ParseMember(old(tokens)) == G.MemberTail(tokens, obj)
        decreases |tokens|
      {
        var front :- At();
        if front.kind != L.Dot && front.kind != L.OpenBracket {
          break;
        }
        var operator := Eat();
        var property: Expr;
        var computed: bool;
        if operator.kind == L.Dot {
          computed := false;
          property :- ParsePrimary();
          if !property.Identifier? {
            return Err(G.DotWithoutIdentifier);
          }
        } else {
          computed := true;
          property :- ParseExpr();
          var close :- Expect(L.CloseBracket);
        }
        obj := Member(obj, property, computed);
      }
      return Ok(obj);
    }

    /** `parse_primary_expr`. */
    method ParsePrimary() returns (r: Outcome<Expr>)
      modifies this
      ensures Agrees(r, G.ParsePrimary(old(tokens)), tokens)
      ensures length == old(length)
      decreases |tokens|, 20
    {
      var front :- At();
      if front.kind == L.Identifier {
        var t := Eat();
        return Ok(Identifier(t.value));
      } else if front.kind == L.String {
        var t := Eat();
        return Ok(StringLiteral(t.value));
      } else if front.kind == L.Null {
        var t := Eat();
        return Ok(NullLiteral);
      } else if front.kind == L.Int {
        var t := Eat();
        var n :- G.IntValue(t.value);
        return Ok(NumericLiteral(n, false));
      } else if front.kind == L.Float {
        var t := Eat();
        var n :- G.FloatValue(t.value);
        return Ok(NumericLiteral(n, true));
      } else if front.kind == L.OpenParen {
        var open := Eat();
        var value :- ParseExpr();
        var close :- Expect(L.CloseParen);
        return Ok(value);
      }
      return Err(G.UnexpectedToken(front));
    }
  }
}
