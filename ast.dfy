/** The abstract syntax tree built by the parser: one datatype family for the node classes,
    each constructor standing for one node class and its fixed type tag. */
module Ast {
  import opened Wrappers
  import Lexer

  /** Expression nodes. Operators are kept as the source text of the operator token. */
  datatype Expr =
    | Assignment(left: Expr, right: Expr)
    | ObjectLit(properties: seq<Property>)
    | Binary(left: Expr, operator: string, right: Expr)
    | Unary(operator: string, argument: Expr)
    | Logical(left: Expr, operator: string, right: Expr)
    | Member(obj: Expr, property: Expr, computed: bool)
    | Call(callee: Expr, arguments: seq<Expr>)
    | Identifier(name: string)
    | NumericLiteral(value: int, isFloat: bool)
    | NullLiteral
    | StringLiteral(text: string)

  /** An object-literal entry; a missing value is the shorthand form `{ key }`. */
  datatype Property = Property(key: string, value: Option<Expr> := None)

  /** The `kind` of a declaration: "declare", "var", or, after a malformed `const`,
      the kind of the token that stood where the keyword was expected. */
  datatype DeclKind = DeclareKind | VarKind | OtherKind(token: Lexer.TokenType)

  /** One `name = init` entry of a declaration; `init` is None when no `=` follows the name. */
  datatype Declarator = Declarator(name: string, init: Option<Expr>)

  /** Statement nodes; `ExprStmt` is the expression-statement wrapper. */
  datatype Stmt =
    | VarDecl(declarations: seq<Declarator>, kind: DeclKind, constant: bool)
    | FnDecl(name: string, params: seq<string>, body: Stmt)
    | If(condition: Expr, consequent: Stmt, alternate: Option<Stmt> := None)
    | While(condition: Expr, body: Stmt)
    | Block(statements: seq<Stmt>)
    | ExprStmt(expression: Expr)

  /** A whole source file: the span it covers and its statements in order. */
  datatype Program = Program(start: int, end: int, body: seq<Stmt>)

  /** The type tag each expression constructor records. */
  function ExprTag(e: Expr): string
  {
    match e
    case Assignment(_, _) => "AssignmentExpression"
    case ObjectLit(_) => "ObjectExpression"
    case Binary(_, _, _) => "BinaryExpression"
    case Unary(_, _) => "UnaryExpression"
    case Logical(_, _, _) => "LogicalExpression"
    case Member(_, _, _) => "MemberExpression"
    case Call(_, _) => "CallExpression"
    case Identifier(_) => "Identifier"
    case NumericLiteral(_, _) => "NumericLiteral"
    case NullLiteral => "NullLiteral"
    case StringLiteral(_) => "StringLiteral"
  }

  /** The type tag each statement constructor records. */
  function StmtTag(s: Stmt): string
  {
    match s
    case VarDecl(_, _, _) => "VariableDeclaration"
    case FnDecl(_, _, _) => "FunctionDeclaration"
    case If(_, _, _) => "IfStatement"
    case While(_, _) => "WhileStatement"
    case Block(_) => "BlockStatement"
    case ExprStmt(_) => "ExpressionStatement"
  }

  const ProgramTag := "Program"
  const PropertyTag := "Property"

  /** Two expressions carry the same tag exactly when they are built by the same constructor. */
  lemma ExprTagIdentifiesConstructor(a: Expr, b: Expr)
    ensures ExprTag(a) == ExprTag(b) <==>
      && a.Assignment? == b.Assignment? && a.ObjectLit? == b.ObjectLit?
      && a.Binary? == b.Binary? && a.Unary? == b.Unary? && a.Logical? == b.Logical?
      && a.Member? == b.Member? && a.Call? == b.Call? && a.Identifier? == b.Identifier?
      && a.NumericLiteral? == b.NumericLiteral? && a.NullLiteral? == b.NullLiteral?
      && a.StringLiteral? == b.StringLiteral?
  {
  }

  /** Two statements carry the same tag exactly when they are built by the same constructor,
      and the expression-statement wrapper is tagged "ExpressionStatement". */
  lemma StmtTagIdentifiesConstructor(a: Stmt, b: Stmt)
    ensures StmtTag(a) == StmtTag(b) <==>
      && a.VarDecl? == b.VarDecl? && a.FnDecl? == b.FnDecl? && a.If? == b.If?
      && a.While? == b.While? && a.Block? == b.Block? && a.ExprStmt? == b.ExprStmt?
    ensures a.ExprStmt? <==> StmtTag(a) == "ExpressionStatement"
  {
  }

  /** No statement tag is an expression tag or the Program or Property tag, and no
      expression tag is either of those two. */
  lemma TagsDisjoint(s: Stmt, e: Expr)
    ensures StmtTag(s) != ExprTag(e) && StmtTag(s) != ProgramTag && StmtTag(s) != PropertyTag
    ensures ExprTag(e) != ProgramTag && ExprTag(e) != PropertyTag
  {
  }

  /** The defaults: an if without else has no alternate, a property built from a key alone
      is the shorthand form, and an assignment keeps both sides. */
  lemma ConstructorDefaults(c: Expr, s: Stmt, key: string, l: Expr, r: Expr)
    ensures If(c, s).alternate == None
    ensures Property(key).value == None && Property(key).key == key
    ensures Assignment(l, r).left == l && Assignment(l, r).right == r
  {
  }
}
