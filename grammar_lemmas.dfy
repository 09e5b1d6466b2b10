/** What the parser promises, stated about the grammar functions: statement dispatch,
    associativity of each precedence level, declarations, member and call chains, blocks,
    parentheses and the program span. */
module GrammarLemmas {
  import opened Wrappers
  import opened Ast
  import opened Grammar
  import L = Lexer

  // ---- Statements -------------------------------------------------------------------------

  /** The front token alone decides which statement is parsed; a declaration is constant
      exactly when it starts with `const`. */
  lemma StmtDispatch(ts: seq<L.Token>)
    requires |ts| > 0
    ensures var r := ParseStmt(ts);
      r.POk? ==>
        && (ts[0].kind == L.If <==> r.node.If?)
        && (ts[0].kind == L.While <==> r.node.While?)
        && (ts[0].kind in {L.Declare, L.Const, L.Var} <==> r.node.VarDecl?)
        && (ts[0].kind == L.Def <==> r.node.FnDecl?)
        && (ts[0].kind !in {L.If, L.While, L.Declare, L.Const, L.Var, L.Def} <==> r.node.ExprStmt?)
        && (r.node.VarDecl? ==> r.node.constant == (ts[0].kind == L.Const))
  {
    var k := ts[0].kind;
    if k == L.If {
      assert ParseStmt(ts) == ParseIf(ts);
    } else if k == L.While {
      assert ParseStmt(ts) == ParseWhile(ts);
    } else if k in {L.Declare, L.Const, L.Var} {
      assert ParseStmt(ts) == ParseVarDecl(ts);
    } else if k == L.Def {
      assert ParseStmt(ts) == ParseFnDecl(ts);
    } else {
      assert ParseStmt(ts) == ParseExprStmt(ts);
    }
  }

  /** The declarator loop keeps the declarators read before it and adds at least one; under
      `const` every declarator it adds has an initializer. */
  lemma {:induction false} DeclaratorsKeepAndInit(ts: seq<L.Token>, isConstant: bool, decls: seq<Declarator>)
    ensures var r := ParseDeclarators(ts, isConstant, decls);
      r.POk? ==>
        && |r.node| > |decls| && r.node[..|decls|] == decls
        && (isConstant ==> forall i :: |decls| <= i < |r.node| ==> r.node[i].init.Some?)
    decreases |ts|
  {
    var id := Expect(ts, L.Identifier);
    if id.POk? {
      var init := ParseInit(id.rest, isConstant);
      if init.POk? && |init.rest| > 0 && init.rest[0].kind == L.Comma {
        var ds := decls + [Declarator(id.node.value, init.node)];
        DeclaratorsKeepAndInit(init.rest[1..], isConstant, ds);
        var r := ParseDeclarators(ts, isConstant, decls);
        if r.POk? {
          assert r == ParseDeclarators(init.rest[1..], isConstant, ds);
          PrefixOfPrefix(r.node, |decls|, |ds|);
        }
      }
    }
  }

  lemma PrefixOfPrefix<T>(s: seq<T>, m: nat, n: nat)
    requires m <= n <= |s|
    ensures s[..n][..m] == s[..m]
  {
  }

  /** A `const` declaration gives every declarator an initializer; all declarators of one
      declaration share its kind and constant flag, which is set exactly for `const`. */
  lemma ConstDeclarationsInitialized(ts: seq<L.Token>)
    requires |ts| > 0 && ts[0].kind in {L.Declare, L.Const, L.Var}
    ensures var r := ParseVarDecl(ts);
      r.POk? ==>
        && r.node.VarDecl? && |r.node.declarations| > 0
        && r.node.constant == (ts[0].kind == L.Const)
        && (r.node.constant ==> forall d :: d in r.node.declarations ==> d.init.Some?)
  {
    var head := DeclHead(ts);
    if head.POk? {
      DeclaratorsKeepAndInit(head.rest, ts[0].kind == L.Const, []);
    }
  }

  /** After a declarator's name: `=` reads an initializer; otherwise a constant fails and a
      variable gets no initializer, leaving the queue as it was. */
  lemma DeclaratorInit(ts: seq<L.Token>, isConstant: bool)
    requires |ts| > 0 && ts[0].kind != L.Equals
    ensures ParseInit(ts, isConstant) == if isConstant then PErr(ConstWithoutInit) else POk(None, ts)
  {
  }

  /** The block loop keeps the statements read before it and stops in front of `}` or EOF
      without consuming it. */
  lemma {:induction false} BlockBodyStops(ts: seq<L.Token>, body: seq<Stmt>)
    ensures var r := ParseBlockBody(ts, body);
      r.POk? ==>
        && (FrontIs(r.rest, L.CloseBrace) || FrontIs(r.rest, L.EOF))
        && |r.node| >= |body| && r.node[..|body|] == body
    decreases |ts|
  {
    if |ts| > 0 && ts[0].kind != L.EOF && ts[0].kind != L.CloseBrace {
      var s := ParseStmt(ts);
      if s.POk? {
        var more := body + [s.node];
        BlockBodyStops(s.rest, more);
        var r := ParseBlockBody(ts, body);
        if r.POk? {
          assert r == ParseBlockBody(s.rest, more);
          assert r.node[..|body|] == r.node[..|more|][..|body|];
        }
      }
    } else if |ts| > 0 {
      assert body[..|body|] == body;
    }
  }

  /** A block stops in front of `}` or EOF; a `while` statement then demands the `}`, so a
      body that runs into EOF is an error naming the EOF token. */
  lemma WhileNeedsClosingBrace(ts: seq<L.Token>)
    requires |ts| > 0
    ensures var cond := ParseExpr(ts[1..]);
      cond.POk? && FrontIs(cond.rest, L.OpenBrace) ==>
        var body := ParseBlock(cond.rest[1..]);
        && (body.POk? ==> FrontIs(body.rest, L.CloseBrace) || FrontIs(body.rest, L.EOF))
        && (body.POk? && FrontIs(body.rest, L.EOF) ==>
              ParseWhile(ts) == PErr(ExpectFailed(L.CloseBrace, body.rest[0])))
        && (body.POk? && FrontIs(body.rest, L.CloseBrace) ==>
              ParseWhile(ts) == POk(While(cond.node, body.node), body.rest[1..]))
  {
    var cond := ParseExpr(ts[1..]);
    if cond.POk? && FrontIs(cond.rest, L.OpenBrace) {
      BlockBodyStops(cond.rest[1..], []);
    }
  }

  /** An `if` statement reads its condition, a `{`, a block and the `}` the block leaves to
      it; then no `else` gives no alternate, `else if` nests a whole `if` statement as the
      alternate, and `else` otherwise demands a braced block. */
  lemma IfShape(ts: seq<L.Token>)
    requires |ts| > 0
    ensures var cond := ParseExpr(ts[1..]);
      && (cond.POk? && !FrontIs(cond.rest, L.OpenBrace) ==> ParseIf(ts).PErr?)
      && (cond.POk? && FrontIs(cond.rest, L.OpenBrace) ==>
        var body := ParseBlock(cond.rest[1..]);
        && (body.POk? ==> FrontIs(body.rest, L.CloseBrace) || FrontIs(body.rest, L.EOF))
        && (body.POk? && FrontIs(body.rest, L.EOF) ==>
              ParseIf(ts) == PErr(ExpectFailed(L.CloseBrace, body.rest[0])))
        && (body.POk? && FrontIs(body.rest, L.CloseBrace) ==>
              var after := body.rest[1..];
              && (|after| > 0 && after[0].kind != L.Else ==>
                    ParseIf(ts) == POk(If(cond.node, body.node, None), after))
              && (|after| > 1 && after[0].kind == L.Else && after[1].kind == L.If ==>
                    var nested := ParseIf(after[1..]);
                    ParseIf(ts) == if nested.POk? then POk(If(cond.node, body.node, Some(nested.node)), nested.rest)
                                   else PErr(nested.error))
              && (|after| > 1 && after[0].kind == L.Else && after[1].kind !in {L.If, L.OpenBrace} ==>
                    ParseIf(ts) == PErr(ExpectFailed(L.OpenBrace, after[1])))
              && (|after| > 1 && after[0].kind == L.Else && after[1].kind == L.OpenBrace ==>
                    var other := ParseBlock(after[2..]);
                    && (other.POk? && FrontIs(other.rest, L.CloseBrace) ==>
                          ParseIf(ts) == POk(If(cond.node, body.node, Some(other.node)), other.rest[1..]))
                    && (other.POk? && FrontIs(other.rest, L.EOF) ==>
                          ParseIf(ts) == PErr(ExpectFailed(L.CloseBrace, other.rest[0]))))))
  {
    var cond := ParseExpr(ts[1..]);
    if cond.POk? && FrontIs(cond.rest, L.OpenBrace) {
      BlockBodyStops(cond.rest[1..], []);
      var body := ParseBlock(cond.rest[1..]);
      if body.POk? && FrontIs(body.rest, L.CloseBrace) {
        var after := body.rest[1..];
        if |after| > 1 && after[0].kind == L.Else && after[1].kind == L.OpenBrace {
          BlockBodyStops(after[2..], []);
        }
      }
    }
  }

  /** A function declaration reads `def`, a name and an argument list; any argument that is
      not a bare name is `ParamNotIdentifier`; otherwise the parameters are the arguments'
      names in order, and the body is a block that must be closed by `}`. */
  lemma FnDeclShape(ts: seq<L.Token>)
    requires |ts| > 0
    ensures var id := Expect(ts[1..], L.Identifier);
      id.POk? ==>
        var args := ParseArgs(id.rest);
        && (args.POk? && (exists i :: 0 <= i < |args.node| && !args.node[i].Identifier?) ==>
              ParseFnDecl(ts) == PErr(ParamNotIdentifier))
        && (args.POk? && (forall i :: 0 <= i < |args.node| ==> args.node[i].Identifier?) ==>
              && (!FrontIs(args.rest, L.OpenBrace) ==> ParseFnDecl(ts).PErr?)
              && (FrontIs(args.rest, L.OpenBrace) ==>
                    var body := ParseBlock(args.rest[1..]);
                    && (body.POk? && FrontIs(body.rest, L.EOF) ==>
                          ParseFnDecl(ts) == PErr(ExpectFailed(L.CloseBrace, body.rest[0])))
                    && (body.POk? && FrontIs(body.rest, L.CloseBrace) ==>
                          var r := ParseFnDecl(ts);
                          && r.POk? && r.rest == body.rest[1..]
                          && r.node.name == ts[1].value && r.node.body == body.node
                          && |r.node.params| == |args.node|
                          && (forall i :: 0 <= i < |args.node| ==> r.node.params[i] == args.node[i].name))))
  {
    var id := Expect(ts[1..], L.Identifier);
    if id.POk? {
      var args := ParseArgs(ts[2..]);
      if args.POk? && (forall i :: 0 <= i < |args.node| ==> args.node[i].Identifier?) && FrontIs(args.rest, L.OpenBrace) {
        BlockBodyStops(args.rest[1..], []);
        var body := ParseBlock(args.rest[1..]);
        if body.POk? && FrontIs(body.rest, L.CloseBrace) {
          FnDeclParsed(ts);
        } else if body.POk? && FrontIs(body.rest, L.EOF) {
          FnDeclUnclosed(ts);
        }
      }
    }
  }

  /** The success case of `FnDeclShape`. */
  lemma FnDeclParsed(ts: seq<L.Token>)
    requires |ts| > 1 && ts[1].kind == L.Identifier
    requires var args := ParseArgs(ts[2..]);
      && args.POk? && (forall i :: 0 <= i < |args.node| ==> args.node[i].Identifier?)
      && FrontIs(args.rest, L.OpenBrace)
      && ParseBlock(args.rest[1..]).POk? && FrontIs(ParseBlock(args.rest[1..]).rest, L.CloseBrace)
    ensures var args := ParseArgs(ts[2..]); var body := ParseBlock(args.rest[1..]);
      ParseFnDecl(ts) == POk(FnDecl(ts[1].value, ParamNames(args.node), body.node), body.rest[1..])
  {
  }

  /** A function body that runs into EOF: the missing `}` is reported against EOF. */
  lemma FnDeclUnclosed(ts: seq<L.Token>)
    requires |ts| > 1 && ts[1].kind == L.Identifier
    requires var args := ParseArgs(ts[2..]);
      && args.POk? && (forall i :: 0 <= i < |args.node| ==> args.node[i].Identifier?)
      && FrontIs(args.rest, L.OpenBrace)
      && ParseBlock(args.rest[1..]).POk? && FrontIs(ParseBlock(args.rest[1..]).rest, L.EOF)
    ensures var body := ParseBlock(ParseArgs(ts[2..]).rest[1..]);
      ParseFnDecl(ts) == PErr(ExpectFailed(L.CloseBrace, body.rest[0]))
  {
  }

  /** The program loop keeps the statements read before it and stops only in front of EOF. */
  lemma {:induction false} ProgramBodyInOrder(ts: seq<L.Token>, body: seq<Stmt>)
    ensures var r := ParseProgramBody(ts, body);
      r.POk? ==> FrontIs(r.rest, L.EOF) && |r.node| >= |body| && r.node[..|body|] == body
    decreases |ts|
  {
    if |ts| > 0 && ts[0].kind != L.EOF {
      var s := ParseStmt(ts);
      if s.POk? {
        var more := body + [s.node];
        ProgramBodyInOrder(s.rest, more);
        var r := ParseProgramBody(ts, body);
        if r.POk? {
          assert r == ParseProgramBody(s.rest, more);
          assert r.node[..|body|] == r.node[..|more|][..|body|];
        }
      }
    } else if |ts| > 0 {
      assert body[..|body|] == body;
    }
  }

  /** A parsed program spans the whole source, from 0 to the source length, and holds the
      statements of the program loop in order; a lexing failure is reported as such. */
  lemma ProduceSpansSource(source: string)
    ensures Produce(source).Parsed? ==>
      && L.Lex(source).Tokens?
      && Produce(source).program.start == 0
      && Produce(source).program.end == |source|
      && ParseProgramBody(L.Lex(source).tokens, []) == POk(Produce(source).program.body, ParseProgramBody(L.Lex(source).tokens, []).rest)
    ensures L.Lex(source).Failure? ==> Produce(source) == LexFailed(L.Lex(source).error)
  {
  }

  // ---- Associativity ----------------------------------------------------------------------

  /** One operator of a precedence level together with the operand to its right. */
  datatype Step = Step(op: string, operand: Expr)

  /** The node that applies step `s` to the expression `left`. */
  function Apply(left: Expr, s: Step, logical: bool): Expr
  {
    if logical then Logical(left, s.op, s.operand) else Binary(left, s.op, s.operand)
  }

  /** The left fold of `steps` over `base`: the LAST step is the outermost node, so
      `base op1 x op2 y` becomes `(base op1 x) op2 y`. */
  function FoldLeft(base: Expr, steps: seq<Step>, logical: bool): Expr
    decreases |steps|
  {
    if |steps| == 0 then base
    else Apply(FoldLeft(base, steps[..|steps| - 1], logical), steps[|steps| - 1], logical)
  }

  /** The tokens `ts` read, in order, as the operator/operand pairs `steps` and leave `rest`:
      every operator token passes `isOp` and carries the step's operator text, and every
      operand is what `operand` parses right after it. */
  predicate Reads(ts: seq<L.Token>, steps: seq<Step>, rest: seq<L.Token>,
                  isOp: L.Token -> bool, operand: seq<L.Token> -> PResult<Expr>)
    decreases |steps|
  {
    if |steps| == 0 then ts == rest
    else
      && |ts| > 0 && isOp(ts[0]) && ts[0].value == steps[0].op
      && operand(ts[1..]).POk? && operand(ts[1..]).node == steps[0].operand
      && Reads(operand(ts[1..]).rest, steps[1..], rest, isOp, operand)
  }

  predicate IsAdditiveOp(t: L.Token) { IsAdditiveText(t.value) }
  predicate IsMultiplicativeOp(t: L.Token) { IsMultiplicativeText(t.value) }
  predicate IsPowerOp(t: L.Token) { IsPowerText(t.value) }
  predicate IsComparisonOp(t: L.Token) { t.kind in ComparisonKinds }
  predicate IsLogicalOp(t: L.Token) { t.kind in {L.And, L.Or} }

  /** Folding `[s] + steps` over `base` is folding `steps` over `base` with `s` applied. */
  lemma {:induction false} FoldLeftCons(base: Expr, s: Step, steps: seq<Step>, logical: bool)
    ensures FoldLeft(Apply(base, s, logical), steps, logical) == FoldLeft(base, [s] + steps, logical)
    decreases |steps|
  {
    var all := [s] + steps;
    if |steps| > 0 {
      FoldLeftCons(base, s, steps[..|steps| - 1], logical);
      assert all[..|all| - 1] == [s] + steps[..|steps| - 1];
    } else {
      assert all[..|all| - 1] == [];
    }
  }

  /** The additive loop reads `+`/`-` operator/operand pairs, folds them to the left and stops
      in front of a token that is not `+`/`-`. */
  lemma {:induction false} AdditiveLeftAssociative(ts: seq<L.Token>, left: Expr)
    ensures var r := AdditiveTail(ts, left);
      r.POk? ==>
        && (exists steps :: Reads(ts, steps, r.rest, IsAdditiveOp, ParseMultiplicative) && r.node == FoldLeft(left, steps, false))
        && |r.rest| > 0 && !IsAdditiveOp(r.rest[0])
    decreases |ts|
  {
    var r := AdditiveTail(ts, left);
    if r.POk? {
      if IsAdditiveOp(ts[0]) {
        var right := ParseMultiplicative(ts[1..]);
        var s := Step(ts[0].value, right.node);
        AdditiveLeftAssociative(right.rest, Apply(left, s, false));
        var more :| Reads(right.rest, more, r.rest, IsAdditiveOp, ParseMultiplicative) && r.node == FoldLeft(Apply(left, s, false), more, false);
        FoldLeftCons(left, s, more, false);
        assert ([s] + more)[1..] == more;
        assert Reads(ts, [s] + more, r.rest, IsAdditiveOp, ParseMultiplicative);
      } else {
        assert Reads(ts, [], r.rest, IsAdditiveOp, ParseMultiplicative) && r.node == FoldLeft(left, [], false);
      }
    }
  }

  /** The multiplicative loop reads `*`/`/`/`%` operator/operand pairs, folds them to the left
      and stops in front of a token that is none of them. */
  lemma {:induction false} MultiplicativeLeftAssociative(ts: seq<L.Token>, left: Expr)
    ensures var r := MultiplicativeTail(ts, left);
      r.POk? ==>
        && (exists steps :: Reads(ts, steps, r.rest, IsMultiplicativeOp, ParsePower) && r.node == FoldLeft(left, steps, false))
        && |r.rest| > 0 && !IsMultiplicativeOp(r.rest[0])
    decreases |ts|
  {
    var r := MultiplicativeTail(ts, left);
    if r.POk? {
      if IsMultiplicativeOp(ts[0]) {
        var right := ParsePower(ts[1..]);
        var s := Step(ts[0].value, right.node);
        MultiplicativeLeftAssociative(right.rest, Apply(left, s, false));
        var more :| Reads(right.rest, more, r.rest, IsMultiplicativeOp, ParsePower) && r.node == FoldLeft(Apply(left, s, false), more, false);
        FoldLeftCons(left, s, more, false);
        assert ([s] + more)[1..] == more;
        assert Reads(ts, [s] + more, r.rest, IsMultiplicativeOp, ParsePower);
      } else {
        assert Reads(ts, [], r.rest, IsMultiplicativeOp, ParsePower) && r.node == FoldLeft(left, [], false);
      }
    }
  }

  /** The power loop reads `^` operator/operand pairs and folds them to the LEFT, so
      `a ^ b ^ c` is `(a ^ b) ^ c`; it stops in front of a token that is not `^`. */
  lemma {:induction false} PowerLeftAssociative(ts: seq<L.Token>, left: Expr)
    ensures var r := PowerTail(ts, left);
      r.POk? ==>
        && (exists steps :: Reads(ts, steps, r.rest, IsPowerOp, ParseCallMember) && r.node == FoldLeft(left, steps, false))
        && |r.rest| > 0 && !IsPowerOp(r.rest[0])
    decreases |ts|
  {
    var r := PowerTail(ts, left);
    if r.POk? {
      if IsPowerOp(ts[0]) {
        var right := ParseCallMember(ts[1..]);
        var s := Step(ts[0].value, right.node);
        PowerLeftAssociative(right.rest, Apply(left, s, false));
        var more :| Reads(right.rest, more, r.rest, IsPowerOp, ParseCallMember) && r.node == FoldLeft(Apply(left, s, false), more, false);
        FoldLeftCons(left, s, more, false);
        assert ([s] + more)[1..] == more;
        assert Reads(ts, [s] + more, r.rest, IsPowerOp, ParseCallMember);
      } else {
        assert Reads(ts, [], r.rest, IsPowerOp, ParseCallMember) && r.node == FoldLeft(left, [], false);
      }
    }
  }

  /** The comparison loop reads comparison-operator/operand pairs, folds them to the left and
      stops in front of a token whose kind is not a comparison. */
  lemma {:induction false} ComparisonLeftAssociative(ts: seq<L.Token>, left: Expr)
    ensures var r := ComparisonTail(ts, left);
      r.POk? ==>
        && (exists steps :: Reads(ts, steps, r.rest, IsComparisonOp, ParseAdditive) && r.node == FoldLeft(left, steps, false))
        && |r.rest| > 0 && !IsComparisonOp(r.rest[0])
    decreases |ts|
  {
    var r := ComparisonTail(ts, left);
    if r.POk? {
      if IsComparisonOp(ts[0]) {
        var right := ParseAdditive(ts[1..]);
        var s := Step(ts[0].value, right.node);
        ComparisonLeftAssociative(right.rest, Apply(left, s, false));
        var more :| Reads(right.rest, more, r.rest, IsComparisonOp, ParseAdditive) && r.node == FoldLeft(Apply(left, s, false), more, false);
        FoldLeftCons(left, s, more, false);
        assert ([s] + more)[1..] == more;
        assert Reads(ts, [s] + more, r.rest, IsComparisonOp, ParseAdditive);
      } else {
        assert Reads(ts, [], r.rest, IsComparisonOp, ParseAdditive) && r.node == FoldLeft(left, [], false);
      }
    }
  }

  /** The logical loop reads `and`/`or` operator/operand pairs, folds them to the left into
      logical nodes and stops in front of a token that is neither. */
  lemma {:induction false} LogicalLeftAssociative(ts: seq<L.Token>, left: Expr)
    ensures var r := LogicalTail(ts, left);
      r.POk? ==>
        && (exists steps :: Reads(ts, steps, r.rest, IsLogicalOp, ParseUnary) && r.node == FoldLeft(left, steps, true))
        && |r.rest| > 0 && !IsLogicalOp(r.rest[0])
    decreases |ts|
  {
    var r := LogicalTail(ts, left);
    if r.POk? {
      if IsLogicalOp(ts[0]) {
        var right := ParseUnary(ts[1..]);
        var s := Step(ts[0].value, right.node);
        LogicalLeftAssociative(right.rest, Apply(left, s, true));
        var more :| Reads(right.rest, more, r.rest, IsLogicalOp, ParseUnary) && r.node == FoldLeft(Apply(left, s, true), more, true);
        FoldLeftCons(left, s, more, true);
        assert ([s] + more)[1..] == more;
        assert Reads(ts, [s] + more, r.rest, IsLogicalOp, ParseUnary);
      } else {
        assert Reads(ts, [], r.rest, IsLogicalOp, ParseUnary) && r.node == FoldLeft(left, [], true);
      }
    }
  }

  /** A token after which no call, member access or `^` continues. */
  predicate EndsPower(t: L.Token)
  {
    t.kind !in {L.Dot, L.OpenBracket, L.OpenParen} && !IsPowerText(t.value)
  }

  /** A token after which no operator of the logical level or below continues. */
  predicate EndsLogical(t: L.Token)
  {
    && EndsPower(t) && !IsMultiplicativeText(t.value) && !IsAdditiveText(t.value)
    && t.kind !in ComparisonKinds && t.kind !in {L.And, L.Or}
  }

  function Name(x: string): L.Token { L.Token(x, L.Identifier) }

  /** A name is a complete call/member-level operand when no `.`, `[` or `(` follows it. */
  lemma CallMemberOperand(x: string, rest: seq<L.Token>)
    requires |rest| > 0 && rest[0].kind !in {L.Dot, L.OpenBracket, L.OpenParen}
    ensures ParseCallMember([Name(x)] + rest) == POk(Identifier(x), rest)
  {
    var ts := [Name(x)] + rest;
    assert ts[1..] == rest;
    assert ParsePrimary(ts) == POk(Identifier(x), rest);
    assert ParseMember(ts) == POk(Identifier(x), rest);
  }

  lemma PowerOperand(x: string, rest: seq<L.Token>)
    requires |rest| > 0 && EndsPower(rest[0])
    ensures ParsePower([Name(x)] + rest) == POk(Identifier(x), rest)
  {
    CallMemberOperand(x, rest);
  }

  /** A name is a complete multiplicative-level operand when the next token continues no
      operator of that level or below. */
  lemma MultiplicativeOperand(x: string, rest: seq<L.Token>)
    requires |rest| > 0 && EndsPower(rest[0]) && !IsMultiplicativeText(rest[0].value)
    ensures ParseMultiplicative([Name(x)] + rest) == POk(Identifier(x), rest)
  {
    PowerOperand(x, rest);
  }

  /** A name is a complete additive-level operand when the next token continues no
      arithmetic operator. */
  lemma AdditiveOperand(x: string, rest: seq<L.Token>)
    requires |rest| > 0 && EndsPower(rest[0]) && !IsMultiplicativeText(rest[0].value) && !IsAdditiveText(rest[0].value)
    ensures ParseAdditive([Name(x)] + rest) == POk(Identifier(x), rest)
  {
    MultiplicativeOperand(x, rest);
  }

  /** A name is a complete unary-level operand when the next token continues no arithmetic
      operator and no comparison. */
  lemma UnaryOperand(x: string, rest: seq<L.Token>)
    requires |rest| > 0 && EndsPower(rest[0]) && !IsMultiplicativeText(rest[0].value) && !IsAdditiveText(rest[0].value)
    requires rest[0].kind !in ComparisonKinds
    ensures ParseUnary([Name(x)] + rest) == POk(Identifier(x), rest)
  {
    var ts := [Name(x)] + rest;
    AdditiveOperand(x, rest);
    assert ParseComparison(ts) == POk(Identifier(x), rest);
  }

  /** A name is a complete object-level operand when the next token continues no operator of
      the logical level or below. */
  lemma ObjectOperand(x: string, rest: seq<L.Token>)
    requires |rest| > 0 && EndsLogical(rest[0])
    ensures ParseObject([Name(x)] + rest) == POk(Identifier(x), rest)
  {
    var ts := [Name(x)] + rest;
    UnaryOperand(x, rest);
    assert ParseLogical(ts) == POk(Identifier(x), rest);
  }

  /** `a - b - c` parses as `(a - b) - c`. */
  lemma SubtractionGroupsLeft(a: string, b: string, c: string)
    ensures var minus := L.Token("-", L.UnaryMinus);
      ParseAdditive([Name(a), minus, Name(b), minus, Name(c), L.EndOfFile])
        == POk(Binary(Binary(Identifier(a), "-", Identifier(b)), "-", Identifier(c)), [L.EndOfFile])
  {
    var minus := L.Token("-", L.UnaryMinus);
    var ts := [Name(a), minus, Name(b), minus, Name(c), L.EndOfFile];
    MultiplicativeOperand(a, ts[1..]);
    assert ts == [Name(a)] + ts[1..];
    MultiplicativeOperand(b, ts[3..]);
    assert ts[2..] == [Name(b)] + ts[3..];
    MultiplicativeOperand(c, ts[5..]);
    assert ts[4..] == [Name(c)] + ts[5..];
    var ab := Binary(Identifier(a), "-", Identifier(b));
    assert AdditiveTail(ts[5..], Binary(ab, "-", Identifier(c))) == POk(Binary(ab, "-", Identifier(c)), ts[5..]);
    assert AdditiveTail(ts[3..], ab) == AdditiveTail(ts[5..], Binary(ab, "-", Identifier(c)));
    assert AdditiveTail(ts[1..], Identifier(a)) == AdditiveTail(ts[3..], ab);
  }

  /** `a * b * c` parses as `(a * b) * c`. */
  lemma ProductGroupsLeft(a: string, b: string, c: string)
    ensures var times := L.Token("*", L.BinaryOperator);
      ParseMultiplicative([Name(a), times, Name(b), times, Name(c), L.EndOfFile])
        == POk(Binary(Binary(Identifier(a), "*", Identifier(b)), "*", Identifier(c)), [L.EndOfFile])
  {
    var times := L.Token("*", L.BinaryOperator);
    var ts := [Name(a), times, Name(b), times, Name(c), L.EndOfFile];
    PowerOperand(a, ts[1..]);
    assert ts == [Name(a)] + ts[1..];
    PowerOperand(b, ts[3..]);
    assert ts[2..] == [Name(b)] + ts[3..];
    PowerOperand(c, ts[5..]);
    assert ts[4..] == [Name(c)] + ts[5..];
    var ab := Binary(Identifier(a), "*", Identifier(b));
    assert MultiplicativeTail(ts[5..], Binary(ab, "*", Identifier(c))) == POk(Binary(ab, "*", Identifier(c)), ts[5..]);
    assert MultiplicativeTail(ts[3..], ab) == MultiplicativeTail(ts[5..], Binary(ab, "*", Identifier(c)));
    assert MultiplicativeTail(ts[1..], Identifier(a)) == MultiplicativeTail(ts[3..], ab);
  }

  /** `a ^ b ^ c` parses as `(a ^ b) ^ c`, not as the right-nested power of mathematics. */
  lemma PowerGroupsLeft(a: string, b: string, c: string)
    ensures var caret := L.Token("^", L.BinaryOperator);
      ParsePower([Name(a), caret, Name(b), caret, Name(c), L.EndOfFile])
        == POk(Binary(Binary(Identifier(a), "^", Identifier(b)), "^", Identifier(c)), [L.EndOfFile])
  {
    var caret := L.Token("^", L.BinaryOperator);
    var ts := [Name(a), caret, Name(b), caret, Name(c), L.EndOfFile];
    CallMemberOperand(a, ts[1..]);
    assert ts == [Name(a)] + ts[1..];
    CallMemberOperand(b, ts[3..]);
    assert ts[2..] == [Name(b)] + ts[3..];
    CallMemberOperand(c, ts[5..]);
    assert ts[4..] == [Name(c)] + ts[5..];
    var ab := Binary(Identifier(a), "^", Identifier(b));
    assert PowerTail(ts[5..], Binary(ab, "^", Identifier(c))) == POk(Binary(ab, "^", Identifier(c)), ts[5..]);
    assert PowerTail(ts[3..], ab) == PowerTail(ts[5..], Binary(ab, "^", Identifier(c)));
    assert PowerTail(ts[1..], Identifier(a)) == PowerTail(ts[3..], ab);
  }

  /** `a < b < c` parses as `(a < b) < c`: a comparison of a comparison, not a chained test. */
  lemma ComparisonGroupsLeft(a: string, b: string, c: string)
    ensures var less := L.Token("<", L.LessThan);
      ParseComparison([Name(a), less, Name(b), less, Name(c), L.EndOfFile])
        == POk(Binary(Binary(Identifier(a), "<", Identifier(b)), "<", Identifier(c)), [L.EndOfFile])
  {
    var less := L.Token("<", L.LessThan);
    var ts := [Name(a), less, Name(b), less, Name(c), L.EndOfFile];
    AdditiveOperand(a, ts[1..]);
    assert ts == [Name(a)] + ts[1..];
    AdditiveOperand(b, ts[3..]);
    assert ts[2..] == [Name(b)] + ts[3..];
    AdditiveOperand(c, ts[5..]);
    assert ts[4..] == [Name(c)] + ts[5..];
    var ab := Binary(Identifier(a), "<", Identifier(b));
    assert ComparisonTail(ts[5..], Binary(ab, "<", Identifier(c))) == POk(Binary(ab, "<", Identifier(c)), ts[5..]);
    assert ComparisonTail(ts[3..], ab) == ComparisonTail(ts[5..], Binary(ab, "<", Identifier(c)));
    assert ComparisonTail(ts[1..], Identifier(a)) == ComparisonTail(ts[3..], ab);
  }

  /** `a and b and c` parses as `(a and b) and c`. */
  lemma ConjunctionGroupsLeft(a: string, b: string, c: string)
    ensures var and := L.Token("and", L.And);
      ParseLogical([Name(a), and, Name(b), and, Name(c), L.EndOfFile])
        == POk(Logical(Logical(Identifier(a), "and", Identifier(b)), "and", Identifier(c)), [L.EndOfFile])
  {
    var and := L.Token("and", L.And);
    var ts := [Name(a), and, Name(b), and, Name(c), L.EndOfFile];
    UnaryOperand(a, ts[1..]);
    assert ts == [Name(a)] + ts[1..];
    UnaryOperand(b, ts[3..]);
    assert ts[2..] == [Name(b)] + ts[3..];
    UnaryOperand(c, ts[5..]);
    assert ts[4..] == [Name(c)] + ts[5..];
    var ab := Logical(Identifier(a), "and", Identifier(b));
    assert LogicalTail(ts[5..], Logical(ab, "and", Identifier(c))) == POk(Logical(ab, "and", Identifier(c)), ts[5..]);
    assert LogicalTail(ts[3..], ab) == LogicalTail(ts[5..], Logical(ab, "and", Identifier(c)));
    assert LogicalTail(ts[1..], Identifier(a)) == LogicalTail(ts[3..], ab);
  }

  /** `a = b = c` parses as `a = (b = c)`. */
  lemma AssignmentGroupsRight(a: string, b: string, c: string)
    ensures var eq := L.Token("=", L.Equals);
      ParseAssignment([Name(a), eq, Name(b), eq, Name(c), L.EndOfFile])
        == POk(Assignment(Identifier(a), Assignment(Identifier(b), Identifier(c))), [L.EndOfFile])
  {
    var eq := L.Token("=", L.Equals);
    var inner := [Name(b), eq, Name(c)] + [L.EndOfFile];
    SingleAssignment(b, c, [L.EndOfFile]);
    AssignedName(a, inner);
    Regroup(Name(a), eq, Name(b), Name(c), L.EndOfFile);
  }

  /** The token queue `x = y = z` followed by `t`, put together from its two halves. */
  lemma Regroup(x: L.Token, eq: L.Token, y: L.Token, z: L.Token, t: L.Token)
    ensures [x, eq] + ([y, eq, z] + [t]) == [x, eq, y, eq, z, t]
  {
  }

  /** `b = c` followed by a token that continues no expression is one assignment of a name
      to a name. */
  lemma SingleAssignment(b: string, c: string, tail: seq<L.Token>)
    requires |tail| > 0 && EndsLogical(tail[0]) && tail[0].kind != L.Equals
    ensures ParseAssignment([Name(b), L.Token("=", L.Equals), Name(c)] + tail)
      == POk(Assignment(Identifier(b), Identifier(c)), tail)
  {
    var eq := L.Token("=", L.Equals);
    AssignmentOperand(c, tail);
    AssignedName(b, [Name(c)] + tail);
    assert [Name(b), eq] + ([Name(c)] + tail) == [Name(b), eq, Name(c)] + tail;
  }

  /** `x =` in front of an assignment-level expression assigns that expression to `x`. */
  lemma AssignedName(x: string, value: seq<L.Token>)
    ensures ParseAssignment(value).POk? ==>
      ParseAssignment([Name(x), L.Token("=", L.Equals)] + value)
        == POk(Assignment(Identifier(x), ParseAssignment(value).node), ParseAssignment(value).rest)
  {
    var rest := [L.Token("=", L.Equals)] + value;
    AssignmentTarget(x, rest);
    assert rest[1..] == value;
    assert [Name(x)] + rest == [Name(x), L.Token("=", L.Equals)] + value;
  }

  /** A name followed by a token that continues no expression is a whole assignment-level
      expression. */
  lemma AssignmentOperand(x: string, rest: seq<L.Token>)
    requires |rest| > 0 && EndsLogical(rest[0]) && rest[0].kind != L.Equals
    ensures ParseAssignment([Name(x)] + rest) == POk(Identifier(x), rest)
  {
    ObjectOperand(x, rest);
  }

  /** A name followed by `=` is the target of an assignment whose value is the whole
      assignment-level expression after the `=`. */
  lemma AssignmentTarget(x: string, rest: seq<L.Token>)
    requires |rest| > 0 && rest[0] == L.Token("=", L.Equals)
    ensures ParseAssignment(rest[1..]).POk? ==>
      ParseAssignment([Name(x)] + rest)
        == POk(Assignment(Identifier(x), ParseAssignment(rest[1..]).node), ParseAssignment(rest[1..]).rest)
  {
    ObjectOperand(x, rest);
  }

  // ---- Object literals ------------------------------------------------------------------

  const OpenBrace := L.Token("{", L.OpenBrace)
  const CloseBrace := L.Token("}", L.CloseBrace)
  const Comma := L.Token(",", L.Comma)
  const Colon := L.Token(":", L.Colon)

  /** A bare key followed by `,` adds a property without a value and keeps the loop's value. */
  lemma BareKeyThenComma(k: string, rest: seq<L.Token>, value: Option<Expr>, props: seq<Property>)
    requires |rest| > 0 && rest[0] == Comma
    ensures ParseProperties([Name(k)] + rest, value, props)
      == ParseProperties(rest[1..], value, props + [Property(k, None)])
  {
    var ts := [Name(k)] + rest;
    assert ts[1..] == rest;
  }

  /** `k: value` right before `}` adds the property with that value, and the loop stops in
      front of the `}`. */
  lemma LastKeyedProperty(k: string, vts: seq<L.Token>, value: Option<Expr>, props: seq<Property>)
    requires ParseExpr(vts).POk? && FrontIs(ParseExpr(vts).rest, L.CloseBrace)
    ensures ParseProperties([Name(k), Colon] + vts, value, props)
      == POk(props + [Property(k, Some(ParseExpr(vts).node))], ParseExpr(vts).rest)
  {
    var ts := [Name(k), Colon] + vts;
    assert ts[1..] == [Colon] + vts;
    assert ts[2..] == vts;
  }

  /** `k: value` followed by `,` adds the property with that value, and the loop goes on with
      it as its value. */
  lemma KeyedPropertyThenComma(k: string, vts: seq<L.Token>, value: Option<Expr>, props: seq<Property>)
    requires ParseExpr(vts).POk? && FrontIs(ParseExpr(vts).rest, L.Comma)
    ensures var v := ParseExpr(vts);
      ParseProperties([Name(k), Colon] + vts, value, props)
        == ParseProperties(v.rest[1..], Some(v.node), props + [Property(k, Some(v.node))])
  {
    var ts := [Name(k), Colon] + vts;
    assert ts[1..] == [Colon] + vts;
    assert ts[2..] == vts;
  }

  /** `k: x` with a bare name `x`, the two cases above. */
  lemma KeyedName(k: string, x: string, rest: seq<L.Token>, value: Option<Expr>, props: seq<Property>)
    requires |rest| > 0 && rest[0] in {Comma, CloseBrace}
    ensures var ps := props + [Property(k, Some(Identifier(x)))];
      && (rest[0] == CloseBrace ==> ParseProperties([Name(k), Colon, Name(x)] + rest, value, props) == POk(ps, rest))
      && (rest[0] == Comma ==>
            ParseProperties([Name(k), Colon, Name(x)] + rest, value, props) == ParseProperties(rest[1..], Some(Identifier(x)), ps))
  {
    AssignmentOperand(x, rest);
    assert ParseExpr([Name(x)] + rest) == POk(Identifier(x), rest);
    assert [Name(k), Colon] + ([Name(x)] + rest) == [Name(k), Colon, Name(x)] + rest;
    if rest[0] == CloseBrace {
      LastKeyedProperty(k, [Name(x)] + rest, value, props);
    } else {
      KeyedPropertyThenComma(k, [Name(x)] + rest, value, props);
    }
  }

  /** `{a, b: c}`: a bare key followed by `,` is a property without a value, and a keyed
      property holds its expression. */
  lemma ShorthandThenKeyed(a: string, b: string, c: string)
    ensures ParseObject([OpenBrace, Name(a), Comma, Name(b), Colon, Name(c), CloseBrace, L.EndOfFile])
      == POk(ObjectLit([Property(a, None), Property(b, Some(Identifier(c)))]), [L.EndOfFile])
  {
    var ts := [OpenBrace, Name(a), Comma, Name(b), Colon, Name(c), CloseBrace, L.EndOfFile];
    KeyedName(b, c, ts[6..], None, [Property(a, None)]);
    assert ts[3..] == [Name(b), Colon, Name(c)] + ts[6..];
    BareKeyThenComma(a, ts[2..], None, []);
    assert ts[1..] == [Name(a)] + ts[2..];
    assert ts[2..][1..] == ts[3..];
    assert ts[6..][0] == CloseBrace;
    var props := [Property(a, None), Property(b, Some(Identifier(c)))];
    assert [] + [Property(a, None)] == [Property(a, None)];
    assert [Property(a, None)] + [Property(b, Some(Identifier(c)))] == props;
    assert ParseProperties(ts[3..], None, [Property(a, None)]) == POk(props, ts[6..]);
    assert ParseProperties(ts[1..], None, []) == POk(props, ts[6..]);
    assert ts[6..][1..] == [L.EndOfFile];
  }

  /** `{a}`: a bare key right before `}` with no earlier `key: value` has nothing to take, so
      the literal fails naming the key. */
  lemma LoneShorthandUnbound(a: string)
    ensures ParseObject([OpenBrace, Name(a), CloseBrace, L.EndOfFile]) == PErr(UnboundValue(a))
  {
    var ts := [OpenBrace, Name(a), CloseBrace, L.EndOfFile];
    assert ParseProperties(ts[1..], None, []) == PErr(UnboundValue(a));
  }

  /** `{a: c, b}`: a bare key right before `}` takes the value of the last keyed property,
      so `b` gets `c` as well. */
  lemma TrailingShorthandReusesValue(a: string, b: string, c: string)
    ensures ParseObject([OpenBrace, Name(a), Colon, Name(c), Comma, Name(b), CloseBrace, L.EndOfFile])
      == POk(ObjectLit([Property(a, Some(Identifier(c))), Property(b, Some(Identifier(c)))]), [L.EndOfFile])
  {
    var ts := [OpenBrace, Name(a), Colon, Name(c), Comma, Name(b), CloseBrace, L.EndOfFile];
    KeyedName(a, c, ts[4..], None, []);
    assert ts[1..] == [Name(a), Colon, Name(c)] + ts[4..];
    assert ts[4..][1..] == ts[5..];
    var first := [Property(a, Some(Identifier(c)))];
    assert [] + [Property(a, Some(Identifier(c)))] == first;
    assert ts[5..] == [Name(b)] + ts[6..];
    assert ParseProperties(ts[5..], Some(Identifier(c)), first) == POk(first + [Property(b, Some(Identifier(c)))], ts[6..]);
    assert ParseProperties(ts[1..], None, []) == POk(first + [Property(b, Some(Identifier(c)))], ts[6..]);
    assert first + [Property(b, Some(Identifier(c)))] == [Property(a, Some(Identifier(c))), Property(b, Some(Identifier(c)))];
    assert ts[6..][1..] == [L.EndOfFile];
  }

  // ---- Unary operators ----------------------------------------------------------------------

  const UnaryKinds := {L.Not, L.UnaryPlus, L.UnaryMinus}

  /** No primary expression starts with a unary operator, and the failure passes up through
      every level down to the comparison the unary operator reads. */
  lemma ComparisonRejectsUnaryFront(ts: seq<L.Token>)
    requires |ts| > 0 && ts[0].kind in UnaryKinds
    ensures ParseComparison(ts) == PErr(UnexpectedToken(ts[0]))
  {
    assert ParsePrimary(ts) == PErr(UnexpectedToken(ts[0]));
    assert ParseMember(ts) == PErr(UnexpectedToken(ts[0]));
    assert ParseCallMember(ts) == PErr(UnexpectedToken(ts[0]));
    assert ParsePower(ts) == PErr(UnexpectedToken(ts[0]));
    assert ParseMultiplicative(ts) == PErr(UnexpectedToken(ts[0]));
    assert ParseAdditive(ts) == PErr(UnexpectedToken(ts[0]));
  }

  /** Unary operators do not nest: a second operator right after the first is an error. A
      single operator applies to the whole comparison that follows it. */
  lemma UnaryDoesNotNest(ts: seq<L.Token>)
    requires |ts| > 1 && ts[0].kind in UnaryKinds
    ensures ts[1].kind in UnaryKinds ==> ParseUnary(ts) == PErr(UnexpectedToken(ts[1]))
    ensures ParseComparison(ts[1..]).POk? ==>
      ParseUnary(ts) == POk(Unary(ts[0].value, ParseComparison(ts[1..]).node), ParseComparison(ts[1..]).rest)
  {
    if ts[1].kind in UnaryKinds {
      ComparisonRejectsUnaryFront(ts[1..]);
    }
  }

  // ---- Members and calls ----------------------------------------------------------------------

  /** `e` is `base`, or a member access whose object is such a chain and whose property, when
      not computed, is a name. */
  predicate MemberChain(e: Expr, base: Expr)
  {
    e == base || (e.Member? && (!e.computed ==> e.property.Identifier?) && MemberChain(e.obj, base))
  }

  /** The member loop nests accesses to the left; a `.` access always names an identifier;
      the loop stops in front of a token that is neither `.` nor `[`. */
  lemma {:induction false} MemberAccessChain(ts: seq<L.Token>, obj: Expr)
    ensures var r := MemberTail(ts, obj);
      r.POk? ==> MemberChain(r.node, obj) && |r.rest| > 0 && r.rest[0].kind !in {L.Dot, L.OpenBracket}
    decreases |ts|
  {
    if |ts| > 0 && ts[0].kind == L.Dot {
      var property := ParsePrimary(ts[1..]);
      if property.POk? && property.node.Identifier? {
        var next := Member(obj, property.node, false);
        MemberAccessChain(property.rest, next);
        var r := MemberTail(ts, obj);
        if r.POk? {
          assert r == MemberTail(property.rest, next);
          MemberChainExtend(r.node, obj, property.node, false);
        }
      }
    } else if |ts| > 0 && ts[0].kind == L.OpenBracket {
      var property := ParseExpr(ts[1..]);
      if property.POk? {
        var close := Expect(property.rest, L.CloseBracket);
        if close.POk? {
          var next := Member(obj, property.node, true);
          MemberAccessChain(close.rest, next);
          var r := MemberTail(ts, obj);
          if r.POk? {
            assert r == MemberTail(close.rest, next);
            MemberChainExtend(r.node, obj, property.node, true);
          }
        }
      }
    }
  }

  lemma {:induction false} MemberChainExtend(e: Expr, base: Expr, property: Expr, computed: bool)
    requires !computed ==> property.Identifier?
    requires MemberChain(e, Member(base, property, computed))
    ensures MemberChain(e, base)
  {
    if e != Member(base, property, computed) {
      MemberChainExtend(e.obj, base, property, computed);
    }
  }

  /** `.` followed by something other than a name is an error; `[expr` must be closed by `]`. */
  lemma MemberAccessErrors(ts: seq<L.Token>, obj: Expr)
    requires |ts| > 0
    ensures ts[0].kind == L.Dot && ParsePrimary(ts[1..]).POk? && !ParsePrimary(ts[1..]).node.Identifier? ==>
      MemberTail(ts, obj) == PErr(DotWithoutIdentifier)
    ensures ts[0].kind == L.OpenBracket && ParseExpr(ts[1..]).POk? && FrontIs(ParseExpr(ts[1..]).rest, L.CloseBracket) ==>
      MemberTail(ts, obj) == MemberTail(ParseExpr(ts[1..]).rest[1..], Member(obj, ParseExpr(ts[1..]).node, true))
    ensures (ts[0].kind == L.OpenBracket && ParseExpr(ts[1..]).POk? && |ParseExpr(ts[1..]).rest| > 0
      && ParseExpr(ts[1..]).rest[0].kind != L.CloseBracket) ==>
      MemberTail(ts, obj) == PErr(ExpectFailed(L.CloseBracket, ParseExpr(ts[1..]).rest[0]))
  {
  }

  /** `e` is a call whose callee is `base` or such a chain. */
  predicate CallChain(e: Expr, base: Expr)
  {
    e.Call? && (e.callee == base || CallChain(e.callee, base))
  }

  lemma {:induction false} CallChainExtend(e: Expr, base: Expr, args: seq<Expr>)
    requires CallChain(e, Call(base, args))
    ensures CallChain(e, base)
  {
    if e.callee != Call(base, args) {
      CallChainExtend(e.callee, base, args);
    }
  }

  /** Every further `(` makes the call so far the callee of a new call; the loop stops in
      front of a token that is not `(`. */
  lemma {:induction false} CallsChain(ts: seq<L.Token>, callee: Expr)
    ensures var r := ParseCall(ts, callee);
      r.POk? ==> CallChain(r.node, callee) && |r.rest| > 0 && r.rest[0].kind != L.OpenParen
    decreases |ts|
  {
    var args := ParseArgs(ts);
    if args.POk? && |args.rest| > 0 && args.rest[0].kind == L.OpenParen {
      var call := Call(callee, args.node);
      CallsChain(args.rest, call);
      var r := ParseCall(ts, callee);
      if r.POk? {
        assert r == ParseCall(args.rest, call);
        if r.node.callee != call {
          CallChainExtend(r.node.callee, callee, args.node);
        }
      }
    }
  }

  /** `()` is an empty argument list. */
  lemma EmptyArguments(ts: seq<L.Token>)
    requires |ts| >= 2 && ts[0].kind == L.OpenParen && ts[1].kind == L.CloseParen
    ensures ParseArgs(ts) == POk([], ts[2..])
  {
    assert ts[1..][1..] == ts[2..];
  }

  // ---- Parentheses ------------------------------------------------------------------------------

  /** A parenthesised expression is the inner node itself, with no wrapper. */
  lemma ParenthesesReturnInner(ts: seq<L.Token>)
    requires |ts| > 0 && ts[0].kind == L.OpenParen
    ensures var inner := ParseExpr(ts[1..]);
      inner.POk? && FrontIs(inner.rest, L.CloseParen) ==> ParsePrimary(ts) == POk(inner.node, inner.rest[1..])
  {
  }
}
