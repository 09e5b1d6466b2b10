# Beam-Script interpreter core, modelled in Dafny

Beam-Script is a small scripting language run by a tree-walking interpreter:

- a lexer turns source text into tokens;
- a recursive-descent parser turns the token queue into an abstract syntax tree;
- an evaluator walks the tree in a chain of scopes (environments) and produces runtime values.

This project models that pipeline and proves what each stage promises.

| file | module | what it holds |
|---|---|---|
| `wrappers.dfy` | `Wrappers` | `Option` and `Result` |
| `lexer.dfy` | `Lexer` | token kinds, the keyword table, character classes, the one-step scanning function `ScanOne`, the whole scan `Lex`, and the imperative scanning loop `Tokenize`, proved to compute `Lex` |
| `lexer_lemmas.dfy` | `LexerLemmas` | the lexing rules, stated about `ScanOne` and `Lex` |
| `ast.dfy` | `Ast` | the node classes as one datatype family, with their type tags |
| `grammar.dfy` | `Grammar` | one function per parser method, over an explicit token sequence |
| `parser.dfy` | `Parser` | the `Parser` class with its token queue; every method is proved to return the node, and leave the queue, that its `Grammar` function prescribes |
| `grammar_lemmas.dfy` | `GrammarLemmas` | dispatch, associativity, declarations, member and call chains, blocks, the program span |
| `runtime.dfy` | `Runtime` | the runtime values; the `Environment` class (variables map, constants list, parent link) with `declareVar`, `resolve`, `lookupVar` and `assignVar`; the global scope |
| `operators.dfy` | `Operators` | arithmetic, comparison, unary and logical operators, and the truth value of a condition |
| `reference.dfy` | `Reference` | a reference evaluator for the expressions that neither assign nor call, reading the scopes only through their variable maps, innermost first; the evaluator's methods are proved to agree with it |
| `store.dfy` | `Store` | the discipline the evaluator keeps over all scopes. The scopes form a closed set. Expressions never declare names. A statement declares names only in the scope it runs in. Constants are never rebound. |
| `interpreter.dfy` | `Interpreter` | one evaluation method per node kind, changing scopes in place |

Evaluation errors are values of `Runtime.RuntimeError`, parse errors of `Grammar.ParseError`, and lexing errors of `Lexer.LexError`. They stand for the exceptions, `exit` calls and Python crashes of the original.

Where the code and the language's design description disagree, the model follows the code, except where the code raises a Python error on values it built as objects rather than dictionaries; there the model reads the code by its evident intent (see "## Left out"). The cases:

- **Object literal shorthand.** The design says `{ a }` looks `a` up. In the parser that holds only for an entry followed by `,` (`Property(key)`). An entry followed by `}` reuses the `value` local of an earlier entry (frontend/parser.py:234-235). On the first entry that value is unbound, which is `Grammar.UnboundValue`.
- **Conditions.** A condition is true by Python truthiness of its `value` field, not by a Boolean payload (`Operators.Truthy`). The original reads that field by subscript in `if` (runtime/interpreter.py:26) and as an attribute in `while` (runtime/interpreter.py:35); the model reads both as the one field.
- **`or`.** It compares the left operand's value with the text `"True"` (runtime/interpreter.py:140). A comparison result on the left, a dictionary whose value is a Python Boolean, therefore returns the right operand. The constants `true` and `false` are objects, on which that subscript raises in the original, so `true or x` raises there; the model reads them like a comparison result and returns `x`.
- **Declarations without an initializer.** They bind null, because `evaluate(None)` returns a null value. They do not bind "no value".
- **Too few call arguments.** These fail by indexing past the argument list (`MissingArgument`).
- **Operand type test.** A binary operation tests the operand type `"number"` by subscript (runtime/interpreter.py:84). The number record `assignVar` returns (runtime/environment.py:34) is an object, on which that subscript raises in the original; the model reads it by intent as a number record, so an assignment result passes the test (`Runtime.Value.Boxed`).

## Model

| member | source | states |
|---|---|---|
| Lexer.Span | frontend/lexer.py:211-213 | the run length is the longest prefix whose characters all pass the test |
| Lexer.SpanUnique | frontend/lexer.py:219-221 | any prefix length with the two run properties is the run length, so a run is determined by its end |
| Lexer.ScanOne | frontend/lexer.py:96-232 | every turn of the scanning loop that does not fail consumes at least one character |
| Lexer.Tokenize | frontend/lexer.py:93-234 | the scanning loop over the shrinking `src` list computes exactly `Lex(sourceCode)`, including its failures |
| Lexer.ReadToken | frontend/lexer.py:97-232 | one turn of the loop, with its inner counting and accumulating loops, emits, skips or fails exactly as `ScanOne` prescribes |
| Lexer.ReadString | frontend/lexer.py:199-209 | the string branch pops the quote, the content up to the next quote of either kind, and the closing quote, as `ScanString` prescribes |
| Lexer.CountRun | frontend/lexer.py:113-117 | the counting loop for `=`, `&` and `\|` runs returns the run length |
| Lexer.TakeWhile | frontend/lexer.py:219-221 | the accumulating loop returns exactly the longest matching prefix |
| LexerLemmas.ScanNeverEmitsEof | frontend/lexer.py:96-232 | no turn of the loop emits an EOF token |
| LexerLemmas.LexFromEndsWithEof | frontend/lexer.py:96-234 | a successful scan extends the tokens emitted so far and closes with the one and only EOF token |
| LexerLemmas.LexEndsWithEof | frontend/lexer.py:233-234 | a successful lex ends with exactly one EOF token, whose value is "EndOfFile" |
| LexerLemmas.PunctuationTokens | frontend/lexer.py:97-198 | each of `( ) { } [ ] : , .` is one token of its own kind, valued by that character, whatever precedes it |
| LexerLemmas.EqualsRun | frontend/lexer.py:111-126 | one `=` is Equals, two are DoubleEquals "==", three or more are fatal |
| LexerLemmas.LogicalRun | frontend/lexer.py:145-172 | exactly two `&` make And and two `\|` make Or; any other run length is fatal |
| LexerLemmas.SignClassification | frontend/lexer.py:173-182 | `+` and `-` are BinaryOperator when no token precedes them or the previous one is a BinaryOperator, and UnaryPlus/UnaryMinus otherwise |
| LexerLemmas.WhitespaceSkipped | frontend/lexer.py:228-229 | space, newline, tab and carriage return are dropped without a token |
| LexerLemmas.UnknownCharacterFails | frontend/lexer.py:230-232 | a character no rule accepts ends the lex with an error naming it |
| LexerLemmas.NumberToken | frontend/lexer.py:210-217 | a digit starts the longest run of digits and dots, kept verbatim, Float exactly when it holds a dot and Int otherwise |
| LexerLemmas.NumberDispatch | frontend/lexer.py:210-217 | a digit always takes the number branch |
| LexerLemmas.WordToken | frontend/lexer.py:218-227 | a letter starts the longest alphanumeric run, which is the keyword's token when reserved and an Identifier otherwise |
| LexerLemmas.KeywordsAreReserved | frontend/lexer.py:49-61 | each reserved word, including null/and/or/not, lexes to its keyword token and never to an Identifier |
| LexerLemmas.WordDispatch | frontend/lexer.py:218-227 | a letter always takes the word branch |
| LexerLemmas.StringToken | frontend/lexer.py:199-209 | a string's content runs to the next quote of either kind; input that ends first, or a closing quote unlike the opening one, is fatal |
| LexerLemmas.StringDispatch | frontend/lexer.py:199-209 | a quote always takes the string branch |
| LexerLemmas.LoneSlash | frontend/lexer.py:186-192 | a `/` followed by neither `/` nor a `*` two places on is a single token valued "/" |
| LexerLemmas.StarStalls | frontend/lexer.py:183-185 | a `*` not followed by `/` consumes nothing, so the scan never terminates |
| LexerLemmas.OperatorAtEndReadsPastInput | frontend/lexer.py:127-192 | `!`, `<`, `>`, `*` or `/` as the last character reads past the end of the input |
| LexerLemmas.LexDigits | frontend/lexer.py:210-217 | a run of digits lexes to one Int token and EOF |
| LexerLemmas.LexDecimal | frontend/lexer.py:210-217 | digits with one dot lex to one Float token and EOF |
| Ast.ExprTagIdentifiesConstructor | frontend/ast.py:89-172 | two expressions carry the same type tag exactly when they are built by the same constructor |
| Ast.StmtTagIdentifiesConstructor | frontend/ast.py:49-87 | two statements carry the same tag exactly when built by the same constructor; the expression-statement wrapper is tagged "ExpressionStatement" |
| Ast.TagsDisjoint | frontend/ast.py:42-172 | no statement tag is an expression tag or the Program or Property tag |
| Ast.ConstructorDefaults | frontend/ast.py:63-94 | an if statement's alternate defaults to none, and an assignment stores its target and value |
| Grammar.Expect | frontend/parser.py:20-25 | `expect` succeeds exactly when the front token has the kind, pops it and returns it; otherwise it fails naming the token, or the empty queue |
| Grammar.ParseProgramBody | frontend/parser.py:43-44 | the statement loop only ever stops in front of EOF |
| Grammar.ParseFnDecl | frontend/parser.py:89-94 | a successful function declaration yields a function-declaration node and consumes tokens; its full shape is stated by `GrammarLemmas.FnDeclShape` |
| Grammar.ParamNames | frontend/parser.py:79-82 | the parameter list holds the identifier arguments' names, one each, in order |
| Grammar.ParseVarDecl | frontend/parser.py:96-163 | a declaration yields a declaration node, constant exactly when it starts with `const` |
| Grammar.ParseDeclarators | frontend/parser.py:125-159 | the declarator loop adds at least one declarator |
| Grammar.ParseIf | frontend/parser.py:181-182 | a successful if statement yields an if node; its full shape is stated by `GrammarLemmas.IfShape` |
| Grammar.ParseWhile | frontend/parser.py:184-191 | a while statement yields a while node |
| Grammar.ParseExprStmt | frontend/parser.py:193-196 | an expression statement yields the expression-statement wrapper |
| Parser.Parser.constructor | frontend/parser.py:7-8 | a new parser has an empty token queue |
| Parser.Parser.NotEof | frontend/parser.py:10-11 | whether the front token is not EOF; reading the front of an empty queue fails |
| Parser.Parser.At | frontend/parser.py:13-14 | the front token; reading the front of an empty queue fails |
| Parser.Parser.Eat | frontend/parser.py:16-18 | pops and returns the front token |
| Parser.Parser.Expect | frontend/parser.py:20-25 | pops the front token and fails unless it has the expected kind, as `Grammar.Expect` says |
| Parser.Parser.ProduceAST | frontend/parser.py:39-51 | tokenizes, then parses statements until EOF: the result is exactly `Grammar.Produce(sourceCode)` |
| Parser.Parser.ParseStmt | frontend/parser.py:53-67 | the node and remaining queue are those of `Grammar.ParseStmt` |
| Parser.Parser.ParseFnDecl | frontend/parser.py:69-94 | as `Grammar.ParseFnDecl` |
| Parser.Parser.ParseVarDecl | frontend/parser.py:96-163 | as `Grammar.ParseVarDecl`, including the declarator loop |
| Parser.Parser.DeclHead | frontend/parser.py:97-120 | the keyword part of a declaration, including the malformed `const` path that reports and goes on, as `Grammar.DeclHead` |
| Parser.Parser.ParseInit | frontend/parser.py:132-144 | a declarator's initializer, as `Grammar.ParseInit` |
| Parser.Parser.ParseIf | frontend/parser.py:165-182 | as `Grammar.ParseIf` |
| Parser.Parser.ParseElse | frontend/parser.py:172-179 | the optional else branch, as `Grammar.ParseElse` |
| Parser.Parser.ParseWhile | frontend/parser.py:184-191 | as `Grammar.ParseWhile` |
| Parser.Parser.ParseExprStmt | frontend/parser.py:193-196 | as `Grammar.ParseExprStmt` |
| Parser.Parser.ParseBlock | frontend/parser.py:198-204 | the block loop, as `Grammar.ParseBlock` |
| Parser.Parser.ParseExpr | frontend/parser.py:206-207 | as `Grammar.ParseExpr` |
| Parser.Parser.ParseAssignment | frontend/parser.py:210-218 | as `Grammar.ParseAssignment` |
| Parser.Parser.ParseObject | frontend/parser.py:220-248 | the object-literal loop, as `Grammar.ParseObject` |
| Parser.Parser.ParseLogical | frontend/parser.py:274-280 | the logical loop, as `Grammar.ParseLogical` |
| Parser.Parser.ParseUnary | frontend/parser.py:282-289 | as `Grammar.ParseUnary` |
| Parser.Parser.ParseComparison | frontend/parser.py:291-304 | the comparison loop, as `Grammar.ParseComparison` |
| Parser.Parser.ParseAdditive | frontend/parser.py:306-312 | the additive loop, as `Grammar.ParseAdditive` |
| Parser.Parser.ParseMultiplicative | frontend/parser.py:314-320 | the multiplicative loop, as `Grammar.ParseMultiplicative` |
| Parser.Parser.ParsePower | frontend/parser.py:322-328 | the power loop, as `Grammar.ParsePower` |
| Parser.Parser.ParseCallMember | frontend/parser.py:330-336 | as `Grammar.ParseCallMember` |
| Parser.Parser.ParseCall | frontend/parser.py:338-344 | as `Grammar.ParseCall` |
| Parser.Parser.ParseArgs | frontend/parser.py:346-354 | as `Grammar.ParseArgs` |
| Parser.Parser.ParseArgumentsList | frontend/parser.py:357-363 | the argument loop, as `Grammar.ParseArgumentsList` |
| Parser.Parser.ParseMember | frontend/parser.py:365-387 | the member loop, as `Grammar.ParseMember` |
| Parser.Parser.ParsePrimary | frontend/parser.py:403-425 | as `Grammar.ParsePrimary` |
| GrammarLemmas.StmtDispatch | frontend/parser.py:53-67 | the front token alone picks the statement: if, while, declaration (constant exactly for `const`), function declaration, otherwise an expression statement |
| GrammarLemmas.DeclaratorsKeepAndInit | frontend/parser.py:125-159 | the declarator loop keeps the earlier declarators and adds at least one; under `const` every new declarator has an initializer |
| GrammarLemmas.ConstDeclarationsInitialized | frontend/parser.py:96-163 | a `const` declaration gives every declarator an initializer; all declarators share the statement's kind and constant flag |
| GrammarLemmas.DeclaratorInit | frontend/parser.py:132-143 | without `=`, a constant declarator fails and any other gets no initializer and leaves the queue as it was |
| GrammarLemmas.BlockBodyStops | frontend/parser.py:198-204 | the block loop keeps earlier statements and stops in front of `}` or EOF without consuming it |
| GrammarLemmas.WhileNeedsClosingBrace | frontend/parser.py:184-191 | a while body that runs into EOF is an error naming the EOF token, since the block leaves the `}` to its caller |
| GrammarLemmas.IfShape | frontend/parser.py:165-182 | after the condition a `{` is required; the consequent block must be closed by `}` (a body running into EOF is an error naming EOF); without `else` the alternate is none; `else if` nests the inner if statement (or its error) as the alternate; any other `else` needs `{`, a block and `}` |
| GrammarLemmas.FnDeclShape | frontend/parser.py:69-94 | a non-identifier argument fails with `ParamNotIdentifier`; the body needs `{` and, when it runs into EOF, a missing `}` names EOF; on success the name is the identifier's text, the parameters are the arguments' names one each in order, the body is the block's statements, and the `}` is consumed |
| GrammarLemmas.FnDeclParsed | frontend/parser.py:76-94 | once the argument list is parsed, success gives the name, the parameter names in order, the block and the rest after `}` |
| GrammarLemmas.FnDeclUnclosed | frontend/parser.py:84-88 | once the argument list is parsed, a body running into EOF fails expecting `}` at the EOF token |
| GrammarLemmas.ProgramBodyInOrder | frontend/parser.py:43-44 | the program loop keeps the statements read so far, in order, and stops only in front of EOF |
| GrammarLemmas.ProduceSpansSource | frontend/parser.py:39-51 | a parsed program spans 0 to the source length and holds the statement loop's statements in order; a lexing failure is reported as such |
| GrammarLemmas.AdditiveLeftAssociative | frontend/parser.py:306-312 | the additive loop reads a sequence of `+`/`-` steps, each an operator and a multiplicative operand, and its node is the left fold of those steps over the first operand (the last step outermost); it stops in front of a token other than `+`/`-` |
| GrammarLemmas.MultiplicativeLeftAssociative | frontend/parser.py:314-320 | the multiplicative loop's node is the left fold of its `/`, `*`, `%` steps, each over a power-level operand; it stops in front of any other token |
| GrammarLemmas.PowerLeftAssociative | frontend/parser.py:322-328 | the power loop's node is the left fold of its `^` steps, each over a call-or-member operand, so `^` groups to the left; it stops in front of a token whose text is not in "^" |
| GrammarLemmas.ComparisonLeftAssociative | frontend/parser.py:291-304 | the comparison loop's node is the left fold of its steps, each a comparison operator kind and an additive operand; it stops in front of a token of no comparison kind |
| GrammarLemmas.LogicalLeftAssociative | frontend/parser.py:274-280 | the logical loop's node is the left fold of its `and`/`or` steps into logical nodes, each over a unary-level operand; it stops in front of a token other than and/or |
| GrammarLemmas.SubtractionGroupsLeft | frontend/parser.py:306-312 | `a - b - c` parses as `(a - b) - c` |
| GrammarLemmas.ProductGroupsLeft | frontend/parser.py:314-320 | `a * b * c` parses as `(a * b) * c` |
| GrammarLemmas.PowerGroupsLeft | frontend/parser.py:322-328 | `a ^ b ^ c` parses as `(a ^ b) ^ c` |
| GrammarLemmas.ComparisonGroupsLeft | frontend/parser.py:291-304 | `a < b < c` parses as `(a < b) < c` |
| GrammarLemmas.ConjunctionGroupsLeft | frontend/parser.py:274-280 | `a and b and c` parses as the logical node `(a and b) and c` |
| GrammarLemmas.AssignmentGroupsRight | frontend/parser.py:210-218 | `a = b = c` parses as `a = (b = c)` |
| GrammarLemmas.AssignmentTarget | frontend/parser.py:210-218 | a name followed by `=` is the target of an assignment whose value is the whole assignment-level expression after the `=` |
| GrammarLemmas.ComparisonRejectsUnaryFront | frontend/parser.py:403-425 | no primary expression starts with a unary operator, and that failure passes up to the comparison level |
| GrammarLemmas.UnaryDoesNotNest | frontend/parser.py:282-289 | a unary operator right after another is an error; one operator applies to the whole comparison after it |
| GrammarLemmas.MemberAccessChain | frontend/parser.py:365-387 | member accesses nest to the left, a `.` access always names an identifier, and the loop stops in front of a token other than `.` and `[` |
| GrammarLemmas.MemberAccessErrors | frontend/parser.py:373-383 | `.` followed by a non-identifier is an error; `[expr` must be closed by `]`, and is computed |
| GrammarLemmas.CallsChain | frontend/parser.py:338-344 | each further `(` makes the call so far the callee of a new call |
| GrammarLemmas.EmptyArguments | frontend/parser.py:346-354 | `()` is an empty argument list |
| GrammarLemmas.ParenthesesReturnInner | frontend/parser.py:416-420 | a parenthesised expression is the inner node itself, closed by `)` |
| GrammarLemmas.BareKeyThenComma | frontend/parser.py:228-233 | a key followed by `,` is a shorthand entry with no value, the comma is consumed, and the value a later shorthand entry reuses stays as it was |
| GrammarLemmas.LastKeyedProperty | frontend/parser.py:238-242 | a `key: value` entry followed by `}` is the last entry, carrying that value, and the loop stops in front of the `}` |
| GrammarLemmas.KeyedPropertyThenComma | frontend/parser.py:238-243 | a `key: value` entry followed by `,` carries that value, the comma is consumed, and the value becomes the one a later shorthand entry reuses |
| GrammarLemmas.KeyedName | frontend/parser.py:238-243 | a `key: name` entry carries the identifier node of the name; before `}` the loop stops there, and before `,` it goes on with that identifier as the value a later shorthand entry reuses |
| GrammarLemmas.ShorthandThenKeyed | frontend/parser.py:220-248 | `{a, b: c}` is an object literal whose first entry is the shorthand `a` with no value and whose second maps `b` to the identifier `c` |
| GrammarLemmas.LoneShorthandUnbound | frontend/parser.py:234-235 | `{a}` fails with `UnboundValue(a)`: the entry reuses a value that no earlier entry set |
| GrammarLemmas.TrailingShorthandReusesValue | frontend/parser.py:234-241 | `{a: c, b}` gives both entries the value `c`: the last shorthand entry reuses the previous entry's value |
| Runtime.NumberTypeIsFloatFlag | runtime/values.py:26-37 | a number's `number_type` is "float" exactly when it was built from a float, since only then does its text hold a dot |
| Runtime.ValueTags | runtime/values.py:15-69 | each value record's type tag; a Boolean defaults to true; an object wraps its map; a function holds name, params, declaration scope and body |
| Runtime.FirstHolder | runtime/environment.py:40-45 | the innermost frame that binds the name, with no frame before it binding it; none exactly when no frame binds it |
| Runtime.AssignmentIsLocal | runtime/environment.py:29-33 | rebinding a name in the frame that resolves it changes that name's lookup and no other name's |
| Runtime.DeclarationShadows | runtime/environment.py:20-38 | declaring a name in the innermost frame shadows outer bindings and changes no other name's lookup |
| Runtime.Environment.constructor | runtime/environment.py:5-14 | a new scope has the given parent and no variables or constants |
| Runtime.Environment.Resolve | runtime/environment.py:40-45 | the nearest scope up the chain that binds the name; fails with Unresolved exactly when no scope of the chain binds it |
| Runtime.Environment.LookupVar | runtime/environment.py:36-38 | the value in the resolving scope, so inner bindings shadow outer ones; fails exactly when resolution fails |
| Runtime.Environment.DeclareVar | runtime/environment.py:20-27 | fails if this scope already binds the name, whatever its parents hold; otherwise binds it, lists it as constant exactly when asked, and returns the value |
| Runtime.Environment.AssignVar | runtime/environment.py:29-34 | fails when unresolved or constant in the resolving scope; otherwise changes only that scope's binding of the name and returns the value wrapped in a number record |
| Runtime.LocalShadowsOuter | runtime/environment.py:36-42 | a name bound in this scope looks up to this scope's binding |
| Runtime.LookupFallsThrough | runtime/environment.py:40-45 | a name this scope lacks is looked up in the parent, and fails at the root |
| Runtime.CreateGlobalEnv | runtime/environment.py:47-66 | the root scope binds `true`, `false` and the `con` object, all three as constants |
| Operators.NumericBinary | runtime/interpreter.py:42-60 | arithmetic always gives a number; it raises exactly on a divisor or modulus whose integer part is zero, or zero to a negative power |
| Operators.BinaryOp | runtime/interpreter.py:80-90 | a binary operation gives null, a number or a Boolean |
| Operators.UnaryOp | runtime/interpreter.py:103-125 | unary `+`/`-` give a number from a number, `not`/`!` a Boolean from a Boolean |
| Operators.LogicalOp | runtime/interpreter.py:127-144 | a logical operation gives one of its operands or a Boolean |
| Operators.TruncDivBrackets | runtime/interpreter.py:50-54 | the integer part of a true quotient, times the divisor, lies within one divisor of the dividend, toward zero |
| Operators.FloorModIdentity | runtime/interpreter.py:55-56 | Python's `%` satisfies the division identity and takes the divisor's sign |
| Operators.AddThenSubtract | runtime/interpreter.py:44-47 | adding then subtracting the same number gives back the first number's integer part, a float exactly when an operand is one |
| Operators.NumericResultType | runtime/interpreter.py:42-60 | a result is a float exactly when an operand is, the operator is `/`, or the power is negative |
| Operators.DivisionTruncates | runtime/interpreter.py:50-54 | division gives the quotient rounded toward zero |
| Operators.NegativePowerIsFraction | runtime/interpreter.py:57-58 | a negative power of a base of magnitude above one has integer part zero and is a float |
| Operators.ComparisonIsBoolean | runtime/interpreter.py:62-77 | comparing two numbers succeeds exactly for the six comparison operators, gives a Boolean, and raises for any other operator |
| Operators.ComparisonComplements | runtime/interpreter.py:62-77 | `<` negates `>=`, `<=` negates `>`, `==` negates `!=`, `<` is `>` swapped, and `==` is equality of the numbers |
| Operators.BinaryOpDispatch | runtime/interpreter.py:80-90 | null exactly when an operand is not a number; arithmetic for `+ - * / % ^` and comparison otherwise on two numbers |
| Operators.DivisionByZeroRaises | runtime/interpreter.py:50-56 | `/` and `%` by zero raise whatever the dividend |
| Operators.UnaryRequirements | runtime/interpreter.py:103-125 | a unary operator succeeds exactly on the operand kind it requires; an unknown operator raises |
| Operators.UnaryInvolutions | runtime/interpreter.py:112-123 | negating twice, and logical negation twice, give back the operand (in the original the inner result is an object, on which the outer operator's type subscript raises; see "## Left out") |
| Operators.AndSemantics | runtime/interpreter.py:131-136 | `and` of equal operands is that operand and of unequal ones false, values being compared by content; so in the model `true and false` is false, where the original, comparing the `true`/`false` objects by type only, gives true (see "## Left out") |
| Operators.OrSemantics | runtime/interpreter.py:138-142 | `or` is true exactly when the left value is the text "True" and otherwise the right operand; a Boolean true on the left also gives the right operand, as the original does for a comparison result (for the `true` constant the original raises; see "## Left out") |
| Operators.LogicalErrors | runtime/interpreter.py:127-144 | a logical operation raises only for an unknown operator or an `or` whose left operand has no value field |
| Operators.TruthyDefined | runtime/interpreter.py:24-35 | exactly the values with a value field have a truth value, and a comparison's truth value is its Boolean (the original's `if` raises on the object values listed under "## Left out", and its `while` on dictionaries) |
| Store.AfterDeclare | runtime/environment.py:20-27 | declaring a new name in one scope keeps every scope sound and changes no other scope |
| Store.AfterAssign | runtime/environment.py:29-33 | rebinding a non-constant name keeps every scope sound, adds no name, and keeps every constant |
| Store.AfterNewScope | runtime/environment.py:5-14 | a new empty scope under a scope of the set may join the set |
| Store.ChainInHeap | runtime/environment.py:40-45 | the whole parent chain of a scope lies in the closed set |
| Store.LookupWithin | runtime/environment.py:36-38 | a looked-up value refers only to scopes of the set |
| Reference.PropertyMapKeys | runtime/interpreter.py:146-163 | the object built from a literal has exactly the literal's keys |
| Reference.PropertyMapLastWins | runtime/interpreter.py:153-160 | a key's value is the one given by its last occurrence in the literal |
| Reference.Lookup | runtime/environment.py:36-45 | a name's value is its binding in the first frame holding it; a name no frame holds raises `Unresolved` naming it |
| Reference.LookupAgrees | runtime/environment.py:36-45 | `lookupVar` on a scope chain is `Lookup` through the chain's variable maps |
| Reference.PurePropsElementwise | runtime/interpreter.py:153-160 | the entries' values succeed exactly when every entry's does, each is its entry's value in order, and a failure is the first failing entry's error |
| Reference.PurePropsPrefixError | runtime/interpreter.py:153-160 | once an entry raises, later entries do not change the error |
| Reference.PureDeclareStep | runtime/interpreter.py:13-17 | declaring one more declarator evaluates its initializer in the scope as declared so far, raises on an existing name, and otherwise binds the name to that value |
| Reference.PureDeclarePrefixError | runtime/interpreter.py:13-17 | once a declarator raises, later declarators do not change the error |
| Reference.Arithmetic | runtime/interpreter.py:42-54 | `1 + 2` evaluates to 3 and `7 / 2` to the float 3, in any scopes |
| Reference.LeftOperandFirst | runtime/interpreter.py:80-82 | when the left operand raises, a binary or logical expression raises that error, whatever the right operand |
| Reference.LogicalEvaluatesBoth | runtime/interpreter.py:127-142 | an unresolved right operand makes both `"True" or x` and `null and x` raise, so the right operand is evaluated even when the left decides |
| Reference.NamesLookInnermost | runtime/environment.py:36-45 | a name, and a shorthand entry of that name, evaluate to the binding of the innermost frame holding it |
| Reference.InnermostHolder | runtime/environment.py:40-45 | the lookup through the frames is the binding of the first frame holding the name |
| Reference.ShorthandEntry | runtime/interpreter.py:153-163 | `{name}` evaluates to an object mapping the name to its lookup |
| Reference.ShorthandValues | runtime/interpreter.py:157 | a shorthand entry's value is its key's lookup |
| Reference.MemberReadsNest | runtime/interpreter.py:165-174 | `a.b.c` reads `c` from the object `a.b` gives, and raises `MissingProperty` when that object lacks `c` |
| Reference.MemberOfOtherObject | runtime/interpreter.py:166-171 | an object that is neither a name nor a member access raises `InvalidMemberObject`, except that a property without a name raises `PropertyWithoutName` first, as the property's name is read before the unbound object |
| Reference.PureEvalSameLookups | runtime/interpreter.py:199-240 | an expression that neither assigns nor calls reads the scopes only through lookups: frames that agree on every lookup give the same value |
| Reference.PurePropsSameLookups | runtime/interpreter.py:153-160 | the same for the entries of an object literal |
| Store.FramesUnchanged | runtime/interpreter.py:199-240 | a step that changed no scope leaves every scope chain's variable maps as they were |
| Store.ResolveUnchanged | runtime/environment.py:40-45 | a step that changed no scope resolves every name to the same scope with the same constants |
| Store.AncestorsBelow | runtime/environment.py:5-14 | a scope's ancestors lie in the closed set and do not include the scope itself |
| Store.FramesKept | runtime/environment.py:36-45 | when no scope of a chain changed its variables, the chain's variable maps are as they were |
| Store.FramesSplit | runtime/environment.py:40-45 | a chain's variable maps are the scope's own followed by its ancestors' |
| Store.OuterKept | runtime/environment.py:20-27 | a step that changed only one scope leaves its ancestors' variable maps as they were |
| Interpreter.ParamMapBinds | runtime/interpreter.py:188-193 | with distinct parameter names, each parameter is bound to its own argument and nothing else is bound |
| Interpreter.DeclareIn | runtime/interpreter.py:17 | `declareVar` in a scope of the set keeps the set closed and changes only that scope |
| Interpreter.AssignIn | runtime/interpreter.py:101 | `assignVar` returns the wrapped value and the name then looks up to the value; it fails when unresolved or constant |
| Interpreter.OpenScope | runtime/interpreter.py:186 | the call scope is new, empty and a child of the given scope |
| Interpreter.Evaluate | runtime/interpreter.py:199-240 | literals give their value and identifiers their lookup, without changing the scopes; no expression declares a name; an expression that neither assigns nor calls gives exactly `Reference.PureEval` in the scopes as they were, and changes nothing |
| Interpreter.EvalBinary | runtime/interpreter.py:80-90 | the result is the binary operator applied to the operands' values; a raising left operand is the result; for operands that neither assign nor call, the operand values are their `PureEval` values, left then right, and the result is `PureEval` of the whole |
| Interpreter.EvalUnary | runtime/interpreter.py:103-125 | the result is the unary operator on the operand's value; for an operand that neither assigns nor calls it is `PureEval` of the expression |
| Interpreter.EvalLogical | runtime/interpreter.py:127-144 | the result is the logical operator on both operands' values; a raising left operand is the result; for operands that neither assign nor call, both operand values are their `PureEval` values, so the right operand is evaluated whatever the left gives |
| Interpreter.EvalAssignment | runtime/interpreter.py:96-101 | a non-identifier target raises before anything is evaluated; on success the name looks up to the assigned value and the result wraps it; for a right side that neither assigns nor calls, its error is the result, an unresolved or constant name raises, and otherwise the innermost frame holding the name maps it to the right side's `PureEval` value and no other binding changes |
| Interpreter.EvalProperty | runtime/interpreter.py:154-157 | an entry without a value looks its key up; an entry that neither assigns nor calls gives `Reference.PureProp` |
| Interpreter.EvalObject | runtime/interpreter.py:146-163 | the object maps the literal's keys to the entries' values in order, a later key replacing an earlier one; for entries that neither assign nor call, the values are `Reference.PureProps` of the entries and the result is `PureEval` of the literal |
| Interpreter.EvalMember | runtime/interpreter.py:165-174 | the object must be an identifier (whose lookup is the object read) or a member access, and any other object raises, but only after the property's name is read, so a nameless property there raises `PropertyWithoutName`; a property without a name, a non-object and a missing property raise, and otherwise the property's value is the result; when the object chain neither assigns nor calls the result is `PureEval` |
| Interpreter.EvalArgs | runtime/interpreter.py:178 | one value per argument, in order; for arguments that neither assign nor call it succeeds exactly when every argument's `PureEval` does, each value is that argument's, and a failure is the first failing argument's error |
| Interpreter.BindParams | runtime/interpreter.py:188-193 | parameters are declared positionally and non-constant; the call fails when arguments run short or a name repeats |
| Interpreter.EnterCall | runtime/interpreter.py:186-193 | the call scope is a new child of the declaration scope holding exactly the parameter bindings |
| Interpreter.CallFunction | runtime/interpreter.py:184-195 | too few arguments fail; on success the parameters were distinct and bound positionally, none as a constant, in a new child of the declaration scope |
| Interpreter.ApplyCallee | runtime/interpreter.py:179-197 | a built-in gives the input line or no value; a user function runs in a new scope; any other callee raises; for a callee that neither assigns nor calls, its error is the result and otherwise the function applied is its `PureEval` value |
| Interpreter.EvalCall | runtime/interpreter.py:177-197 | one value per argument, then the callee applied as `ApplyCallee` says; for arguments that neither assign nor call, a failing argument is the result before the callee is evaluated (the first in order), each argument value is its `PureEval`, and a pure callee's value is the function applied |
| Interpreter.EvalStmt | runtime/interpreter.py:227-240 | a statement declares only in its own scope, every statement except expression statements and blocks gives no value, and an expression statement that neither assigns nor calls gives its expression's `PureEval` |
| Interpreter.EvalProgram | runtime/interpreter.py:7-11 | statements run in the given scope, with no new scope; the value is the last one's, or null for an empty body; when every statement is an expression that neither assigns nor calls, it succeeds exactly when each does, the values are theirs in order, and a failure is the first failing statement's error |
| Interpreter.EvalInit | runtime/interpreter.py:16 | a declarator without initializer gives null and changes nothing; an initializer that neither assigns nor calls gives its `PureEval` value |
| Interpreter.DeclareNext | runtime/interpreter.py:17 | declaring one more declarator extends what the loop has declared |
| Interpreter.EvalDeclarator | runtime/interpreter.py:14-17 | one declarator is evaluated and declared with the statement's constant flag; an initializer that neither assigns nor calls binds its `PureEval` value, and an existing name raises |
| Interpreter.DeclareInOrder | runtime/interpreter.py:14-17 | declaring declarator `i` is one step of `Reference.PureDeclare` when no initializer assigns or calls: the scope's bindings after it are those `PureDeclare` gives for the first `i + 1` declarators, or its error |
| Interpreter.EvalDeclarations | runtime/interpreter.py:15-17 | the declarator loop declares every declarator in order; a failure without initializers is a name already bound or repeated; when no initializer assigns or calls, the scope's bindings are exactly `Reference.PureDeclare`'s, or the statement raises its error, and the outer scopes are untouched |
| Interpreter.EvalVarDecl | runtime/interpreter.py:13-17 | every declared name is new and bound in the scope, listed as constant exactly for a constant declaration; without initializers every name is bound to null; when no initializer assigns or calls, the scope's bindings are those `Reference.PureDeclare` gives, each initializer evaluated in the scope as declared so far, or the statement raises its first error |
| Interpreter.DeclaredAll | runtime/interpreter.py:13-17 | after the loop the names are distinct and new, and the constants list grew by them exactly for a constant declaration |
| Interpreter.EvalFnDecl | runtime/interpreter.py:19-22 | the function, closing over the current scope, is bound as a constant; an existing name raises and changes nothing |
| Interpreter.EvalIf | runtime/interpreter.py:24-29 | a condition without a truth value raises, and a successful if statement gives no value; for a condition that neither assigns nor calls, its error is the result, a true value runs the consequent and a false one the alternate (when the branch is such an expression statement, the result is its error or no value), and a false condition without alternate changes nothing |
| Interpreter.WhileRound | runtime/interpreter.py:33-37 | a round goes on exactly when the condition is true: a false condition stops the loop, a condition without a truth value raises, and a true one with no fuel left fails; for a condition that neither assigns nor calls, the condition read is its `PureEval` value, its error is the result, and a stop changes nothing and leaves the condition false |
| Interpreter.EvalWhile | runtime/interpreter.py:31-37 | the loop ends normally only on a false condition, gives no value, and raises on a condition without a truth value; for a condition that neither assigns nor calls, its error raises, a condition false at the start changes nothing, and after a normal end the condition evaluates to false in the scopes as they are then |

## Left out

- main.py, the interactive loop and file reading, is not part of this model.
- Console output is not modelled. `con.out.print` and `con.out.println` give no value. The arguments passed to built-ins are not inspected.
- `con.in` (runtime/environment.py:57-59) gives the same `input` text, as a string value, on every call. The original reads a fresh line from the console on each call and returns it as a bare Python string, not a value record.
- Floating point is not modelled. A number is its integer part plus a float flag:
  - a float literal keeps its integer part;
  - `/` keeps the quotient rounded toward zero, flagged as a float;
  - a negative power keeps the integer part of the reciprocal;
  - comparisons of floats compare integer parts;
  - a float's text shows only ".0";
  - so `5 / 0.5` and `5 % 0.5` raise `DivisionByZero` in the model, where the original gives 10.0 and 0.0;
  - `if 0.5 { … }` takes the else branch in the model, where the original runs the consequent;
  - `1.5 + 1.5` gives 2 (flagged float), where the original gives 3.0.
- Character classes are ASCII only. Python's `isnumeric`, `isalnum` and upper/lower-case test accept more characters.
- Exceptions and `exit` calls become error values, and the model does not print error messages. The declaration keyword errors at frontend/parser.py:100-118 print and go on, and the model goes on in the same way.
- Python-level failures become named errors:
  - popping or reading an empty token queue;
  - indexing past the input;
  - reading a field a value lacks.
- Python artifacts are read by their evident intent:
  - `.dict()` at frontend/parser.py:93 is read as `__dict__`;
  - the missing `parse_if_else_stmt` (frontend/parser.py:175) is read as `parse_if_stmt`;
  - the `assigne`/`value` field names (runtime/interpreter.py:97-101) are read as `left`/`right`;
  - `condition.value` and `value.properties` are read as dictionary reads; in the original `condition.value` (runtime/interpreter.py:35) raises on a condition built as a dictionary, such as `while 1 < 2`;
  - values the original builds as Python objects rather than dictionaries are read like dictionaries. These are the `true`/`false` constants (runtime/environment.py:49-50), unary results (runtime/interpreter.py:109, 115, 121), the number record `assignVar` returns (runtime/environment.py:34), the null of a declaration without initializer (runtime/interpreter.py:200-201) and function values. In the original, subscripting them raises a TypeError: `condition["value"]` (runtime/interpreter.py:26), `lhs["type"]` and `rhs["type"]` (runtime/interpreter.py:84), `operand["type"]` (runtime/interpreter.py:108, 114, 120) and `left_val["value"]` (runtime/interpreter.py:140). So `if true { … }`, `not true`, `true or x`, `true + 1`, `var y; y + 1` and `(x = 1) == (x = 1)` raise there, while the model runs the consequent and gives false, `x`, null, null and true. This reading shapes Operators.BinaryOp, Operators.UnaryOp, Operators.LogicalOp and Operators.Truthy, and with them the rows Operators.UnaryInvolutions, Operators.OrSemantics and Operators.TruthyDefined.
- Names come straight from the token value. The original extracts a declared name by splitting the token's printed form (frontend/parser.py:89-92, 149-150); that gives the same name for every alphanumeric identifier.
- `evaluate({})` and the "not yet set up" branch (runtime/interpreter.py:202-203, 241-242) are not modelled. No tree the parser builds reaches them, since the node kinds form a closed datatype.
- Evaluation carries a fuel bound, so nontermination and deep recursion are not modelled. Each loop round and each user call spends one unit, and an evaluation that runs out ends with `OutOfFuel`, which has no counterpart in the original.
- Store.Closed and Store.Evolved describe all scopes as a ghost set. They are a proof device, not state of the original.
- Interpreter.Evaluate: for an expression that assigns or calls somewhere inside, it states only the scope discipline; each kind's method (`EvalBinary`, `EvalCall`, ...) then states the operator applied to the operand values, but those values are tied to the subexpressions only where the subexpressions neither assign nor call. `Reference.PureEval` covers exactly the expressions without assignment or call.
- Interpreter.EvalStmt: for statements other than expression statements without assignment or call, it delegates each statement's result to that statement's method.
- Interpreter.CallFunction: it does not relate the result to the body's value. The body is a statement list run in a new scope, and `Reference.PureEval` covers only expressions that neither assign nor call, not statement bodies.
- Interpreter.EvalIf: when the condition assigns or calls, the contract does not say which branch ran; when a branch is not an expression statement without assignment or call, the branch's effect is stated only as the scope discipline.
- Interpreter.EvalWhile: the contract does not count the rounds, and ties the condition to `PureEval` only for a condition that neither assigns nor calls.
- Interpreter.EvalArgs: for arguments that assign or call, it states the number of values, not each value.
- Interpreter.EvalProgram: when a statement is not an expression statement without assignment or call, its value is not tied to the statement.
- Interpreter.EvalVarDecl: an initializer that assigns or calls is not tied to the bound value.
- Operators.LogicalOp: `and` compares its operands by content, as structural equality of values. In the original the `==` at runtime/interpreter.py:133 depends on how each operand was built. Values built as dictionaries (literals, arithmetic and comparison results, object literals) compare by content, as in the model. Values built as objects compare by their `type` field only, through the generated dataclass `==` of `RuntimeVal` (runtime/values.py:10-12, inherited by BooleanVal at 20-23), of NumberVal (runtime/values.py:26-37) and of ObjectVal, NativeFn and FunctionVal (runtime/values.py:39-63). These are the `true`/`false` constants, unary results, assignment results, the null of a declaration without initializer, functions, built-ins and the `con` objects. An object never equals a dictionary. So in the original `true and false` gives true, two number objects are always equal, `f and g` on two different functions gives `f`, and `true and (1 < 2)` gives false; the model gives false, compares the numbers, gives false, and gives true.
- Operators.AndSemantics: states the content-equality reading of `and` above, not the type-only equality the original applies to values built as objects; its `true and false` case gives false in the model and true in the original.
- Parser.Parser.Eat: requires a non-empty queue. Every caller reads the front first with `At`, so the empty-queue failure is reported there.
