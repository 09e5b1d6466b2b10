/** The tree-walking evaluator. Each node kind has its own evaluation method; `Evaluate`
    dispatches on expressions and `EvalStmt` on statements. Every method works on a closed
    set of scopes `heap`, may create new scopes, and changes the existing ones only as
    `Store.Evolved` allows: expressions never declare, and statements only declare in the
    scope they run in.

    Loops and calls could run forever, so evaluation carries `fuel`: a user function call
    runs its body with one unit less, each loop iteration spends one unit, and running out
    ends the evaluation with `OutOfFuel`. The line the `con.in` function reads is `input`. */
module Interpreter {
  import opened Wrappers
  import opened Ast
  import opened Runtime
  import opened Operators
  import opened Store
  import opened Reference

  /** The value of a statement list: the last statement's value, or null when there is none. */
  function LastOr(results: seq<Value>): Value
  {
    if |results| == 0 then NullVal else results[|results| - 1]
  }

  /** A binding list's declarations where none has an initializer: every name bound to null. */
  function NullBindings(decls: seq<Declarator>): map<string, Value>
  {
    map d | d in decls :: d.name := NullVal
  }

  /** Adding one more declarator without initializer to the bindings. */
  lemma NullBindingsStep(before: map<string, Value>, decls: seq<Declarator>, i: nat)
    requires i < |decls|
    ensures before + NullBindings(decls[..i + 1]) == (before + NullBindings(decls[..i]))[decls[i].name := NullVal]
  {
    assert decls[..i + 1] == decls[..i] + [decls[i]];
  }

  /** No name is declared twice in the list. */
  predicate DistinctNames(decls: seq<Declarator>)
  {
    forall i, j :: 0 <= i < j < |decls| ==> decls[i].name != decls[j].name
  }

  /** The declared names, in order. */
  function Names(decls: seq<Declarator>): (names: seq<string>)
    ensures |names| == |decls| && forall i :: 0 <= i < |decls| ==> names[i] == decls[i].name
  {
    if |decls| == 0 then [] else Names(decls[..|decls| - 1]) + [decls[|decls| - 1].name]
  }

  /** The bindings a call's new scope receives: parameter `i` bound to argument `i`, a later
      parameter of the same name replacing an earlier one. */
  function ParamMap(params: seq<string>, args: seq<Value>): map<string, Value>
    requires |params| <= |args|
  {
    if |params| == 0 then map[]
    else ParamMap(params[..|params| - 1], args)[params[|params| - 1] := args[|params| - 1]]
  }

  /** Parameters with distinct names are each bound to their own argument, and nothing else
      is bound. */
  lemma {:induction false} ParamMapBinds(params: seq<string>, args: seq<Value>)
    requires |params| <= |args| && Distinct(params)
    ensures forall k :: k in ParamMap(params, args) <==> k in params
    ensures forall i :: 0 <= i < |params| ==> ParamMap(params, args)[params[i]] == args[i]
  {
    if |params| > 0 {
      var n := |params| - 1;
      var init := params[..n];
      assert Distinct(init) by {
        forall i, j | 0 <= i < j < n
          ensures init[i] != init[j]
        {
          assert init[i] == params[i] && init[j] == params[j];
        }
      }
      ParamMapBinds(init, args);
      assert params == init + [params[n]];
      forall i | 0 <= i < n
        ensures ParamMap(params, args)[params[i]] == args[i]
      {
        assert init[i] == params[i] && params[i] != params[n];
      }
    }
  }

  /** No name occurs twice. */
  predicate Distinct(names: seq<string>)
  {
    forall i, j :: 0 <= i < j < |names| ==> names[i] != names[j]
  }

  /** `declareVar` on a scope of a closed heap: the heap stays closed, and only `env` changes. */
  method DeclareIn(env: Environment, name: string, value: Value, constant: bool, ghost heap: set<Environment>)
    returns (r: Outcome)
    requires Closed(heap) && env in heap && EnvsIn(value) <= heap
    modifies env
    ensures Evolved(heap, heap, env)
    ensures name in old(env.variables) ==> r == Err(AlreadyDeclared(name)) && unchanged(env)
    ensures name !in old(env.variables) ==>
      && r == Ok(value)
      && env.variables == old(env.variables)[name := value]
      && env.constants == old(env.constants) + (if constant then [name] else [])
  {
    r := env.DeclareVar(name, value, constant);
    if r.Ok? {
      AfterDeclare(heap, env, name, value, constant);
    }
  }

  /** `assignVar` from a scope of a closed heap: the heap stays closed and no name is added;
      afterwards the name looks up to the value, and the result is the value wrapped in a
      number record. */
  method AssignIn(env: Environment, name: string, value: Value, ghost heap: set<Environment>)
    returns (r: Outcome)
    requires Closed(heap) && env in heap && EnvsIn(value) <= heap
    modifies heap
    ensures Evolved(heap, heap, null)
    ensures r.Ok? ==> r == Ok(Boxed(value)) && env.LookupVar(name) == Ok(value)
    ensures r.Ok? ==> EnvsIn(r.value) <= heap
    ensures old(env.Resolve(name)).Err? ==> r == Err(Unresolved(name))
    ensures old(env.Resolve(name)).Ok? && name in old(env.Resolve(name).value.constants) ==>
      r == Err(AssignToConstant(name))
    ensures old(env.Resolve(name)).Ok? && name !in old(env.Resolve(name).value.constants) ==>
      && r == Ok(Boxed(value))
      && var i := FirstHolder(old(env.Frames()), name).value;
         env.Frames() == old(env.Frames())[i := old(env.Frames())[i][name := value]]
  {
    OwnerInHeap(env, heap, name);
    ghost var target := env.Resolve(name);
    r := env.AssignVar(name, value);
    if r.Ok? {
      AfterAssign(heap, target.value, name, value);
      BoxedEnvs(value);
    } else {
      Untouched(heap);
    }
  }

  /** A new scope whose parent is `parent`, added to the heap. */
  method OpenScope(parent: Environment, ghost heap: set<Environment>)
    returns (sc: Environment, ghost heap': set<Environment>)
    requires Closed(heap) && parent in heap
    ensures fresh(sc) && heap' == heap + {sc} && Evolved(heap, heap', null)
    ensures sc.parent == parent && sc.variables == map[] && sc.constants == []
  {
    sc := new Environment(parent);
    AfterNewScope(heap, sc);
    heap' := heap + {sc};
  }

  /** Evaluates an expression. Literals and identifiers are evaluated here; every other
      kind goes to its own method. */
  method Evaluate(e: Expr, env: Environment, fuel: nat, input: string, ghost heap: set<Environment>)
    returns (r: Outcome, ghost heap': set<Environment>)
    requires Closed(heap) && env in heap
    modifies heap
    ensures Evolved(heap, heap', null)
    ensures r.Ok? ==> EnvsIn(r.value) <= heap'
    ensures e.NumericLiteral? ==> r == Ok(NumberVal(e.value, e.isFloat)) && heap' == heap
    ensures e.StringLiteral? ==> r == Ok(StringVal(e.text)) && heap' == heap
    ensures e.NullLiteral? ==> r == Ok(NullVal) && heap' == heap
    ensures e.Identifier? ==> r == old(env.LookupVar(e.name)) && heap' == heap
    ensures IsPure(e) ==> r == PureEval(e, old(env.Frames())) && heap' == heap && unchanged(heap)
    decreases fuel, e, 2
  {
    match e
    case NumericLiteral(v, f) =>
      r, heap' := Ok(NumberVal(v, f)), heap;
    case StringLiteral(t) =>
      r, heap' := Ok(StringVal(t)), heap;
    case NullLiteral =>
      r, heap' := Ok(NullVal), heap;
    case Identifier(name) =>
      LookupWithin(env, heap, name);
      LookupAgrees(env, name);
      r, heap' := env.LookupVar(name), heap;
    case Binary(_, _, _) =>
      ghost var operands;
      r, heap', operands := EvalBinary(e, env, fuel, input, heap);
    case Unary(_, _) =>
      ghost var operands;
      r, heap', operands := EvalUnary(e, env, fuel, input, heap);
    case Logical(_, _, _) =>
      ghost var operands;
      r, heap', operands := EvalLogical(e, env, fuel, input, heap);
    case Assignment(_, _) =>
      r, heap' := EvalAssignment(e, env, fuel, input, heap);
    case ObjectLit(_) =>
      ghost var values;
      r, heap', values := EvalObject(e, env, fuel, input, heap);
    case Member(_, _, _) =>
      ghost var obj;
      r, heap', obj := EvalMember(e, env, fuel, input, heap);
    case Call(_, _) =>
      ghost var args, callee, scope;
      r, heap', args, callee, scope := EvalCall(e, env, fuel, input, heap);
  }

  /** Evaluates both operands, left first, and applies the binary operator to their values. */
  method EvalBinary(e: Expr, env: Environment, fuel: nat, input: string, ghost heap: set<Environment>)
    returns (r: Outcome, ghost heap': set<Environment>, ghost operands: seq<Value>)
    requires e.Binary? && Closed(heap) && env in heap
    modifies heap
    ensures Evolved(heap, heap', null)
    ensures r.Ok? ==> EnvsIn(r.value) <= heap'
    ensures r.Ok? ==> |operands| == 2
    ensures |operands| == 2 ==> r == BinaryOp(operands[0], e.operator, operands[1])
    ensures IsPure(e.left) ==> var a := PureEval(e.left, old(env.Frames()));
      && (a.Err? ==> r == a && heap' == heap)
      && (|operands| == 2 ==> a == Ok(operands[0]))
    ensures IsPure(e) ==>
      && r == PureEval(e, old(env.Frames())) && heap' == heap && unchanged(heap)
      && (|operands| == 2 ==> PureEval(e.right, old(env.Frames())) == Ok(operands[1]))
    decreases fuel, e, 0
  {
    var lhs, h1 := Evaluate(e.left, env, fuel, input, heap);
    if lhs.Err? {
      return lhs, h1, [];
    }
    if IsPure(e) {
      FramesUnchanged(heap, env);
    }
    var rhs, h2 := Evaluate(e.right, env, fuel, input, h1);
    if rhs.Err? {
      return rhs, h2, [];
    }
    r, heap', operands := BinaryOp(lhs.value, e.operator, rhs.value), h2, [lhs.value, rhs.value];
  }

  /** Evaluates the operand and applies the unary operator to its value. */
  method EvalUnary(e: Expr, env: Environment, fuel: nat, input: string, ghost heap: set<Environment>)
    returns (r: Outcome, ghost heap': set<Environment>, ghost operands: seq<Value>)
    requires e.Unary? && Closed(heap) && env in heap
    modifies heap
    ensures Evolved(heap, heap', null)
    ensures r.Ok? ==> EnvsIn(r.value) <= heap'
    ensures r.Ok? ==> |operands| == 1
    ensures |operands| == 1 ==> r == UnaryOp(e.operator, operands[0])
    ensures IsPure(e) ==>
      && r == PureEval(e, old(env.Frames())) && heap' == heap && unchanged(heap)
      && (|operands| == 1 ==> PureEval(e.argument, old(env.Frames())) == Ok(operands[0]))
    decreases fuel, e, 0
  {
    var v;
    v, heap' := Evaluate(e.argument, env, fuel, input, heap);
    if v.Err? {
      return v, heap', [];
    }
    r, operands := UnaryOp(e.operator, v.value), [v.value];
  }

  /** Evaluates both operands, left first, whatever the operator, and applies it. */
  method EvalLogical(e: Expr, env: Environment, fuel: nat, input: string, ghost heap: set<Environment>)
    returns (r: Outcome, ghost heap': set<Environment>, ghost operands: seq<Value>)
    requires e.Logical? && Closed(heap) && env in heap
    modifies heap
    ensures Evolved(heap, heap', null)
    ensures r.Ok? ==> EnvsIn(r.value) <= heap'
    ensures r.Ok? ==> |operands| == 2
    ensures |operands| == 2 ==> r == LogicalOp(operands[0], e.operator, operands[1])
    ensures IsPure(e.left) ==> var a := PureEval(e.left, old(env.Frames()));
      && (a.Err? ==> r == a && heap' == heap)
      && (|operands| == 2 ==> a == Ok(operands[0]))
    ensures IsPure(e) ==>
      && r == PureEval(e, old(env.Frames())) && heap' == heap && unchanged(heap)
      && (|operands| == 2 ==> PureEval(e.right, old(env.Frames())) == Ok(operands[1]))
    decreases fuel, e, 0
  {
    var lhs, h1 := Evaluate(e.left, env, fuel, input, heap);
    if lhs.Err? {
      return lhs, h1, [];
    }
    if IsPure(e) {
      FramesUnchanged(heap, env);
    }
    var rhs, h2 := Evaluate(e.right, env, fuel, input, h1);
    if rhs.Err? {
      return rhs, h2, [];
    }
    LogicalWithin(lhs.value, e.operator, rhs.value, h2);
    r, heap', operands := LogicalOp(lhs.value, e.operator, rhs.value), h2, [lhs.value, rhs.value];
  }

  /** A logical operator's value holds only scopes its operands hold. */
  lemma LogicalWithin(lhs: Value, op: string, rhs: Value, heap: set<Environment>)
    requires EnvsIn(lhs) <= heap && EnvsIn(rhs) <= heap
    ensures LogicalOp(lhs, op, rhs).Ok? ==> EnvsIn(LogicalOp(lhs, op, rhs).value) <= heap
  {
  }

  /** Assigns to an identifier: any other target raises before anything is evaluated.
      The value is evaluated first and then rebound in the scope that resolves the name;
      afterwards the name looks up to that value, and the result is the value wrapped in a
      number record. */
  method EvalAssignment(e: Expr, env: Environment, fuel: nat, input: string, ghost heap: set<Environment>)
    returns (r: Outcome, ghost heap': set<Environment>)
    requires e.Assignment? && Closed(heap) && env in heap
    modifies heap
    ensures Evolved(heap, heap', null)
    ensures r.Ok? ==> EnvsIn(r.value) <= heap'
    ensures !e.left.Identifier? ==> r == Err(InvalidAssignmentTarget) && heap' == heap
    ensures r.Ok? ==> e.left.Identifier? && r.value.Boxed? && env.LookupVar(e.left.name) == Ok(r.value.inner)
    ensures e.left.Identifier? && IsPure(e.right) ==>
      var name, v := e.left.name, PureEval(e.right, old(env.Frames()));
      var owner := old(env.Resolve(name));
      && (v.Err? ==> r == v && heap' == heap)
      && (v.Ok? && owner.Err? ==> r == Err(Unresolved(name)))
      && (v.Ok? && owner.Ok? && name in old(owner.value.constants) ==> r == Err(AssignToConstant(name)))
      && (v.Ok? && owner.Ok? && name !in old(owner.value.constants) ==>
            && r == Ok(Boxed(v.value))
            && var i := FirstHolder(old(env.Frames()), name).value;
               env.Frames() == old(env.Frames())[i := old(env.Frames())[i][name := v.value]])
    decreases fuel, e, 0
  {
    if !e.left.Identifier? {
      return Err(InvalidAssignmentTarget), heap;
    }
    var name := e.left.name;
    var v;
    v, heap' := Evaluate(e.right, env, fuel, input, heap);
    if v.Err? {
      return v, heap';
    }
    ghost var pure := IsPure(e.right);
    if pure {
      ResolveUnchanged(heap, env, name);
    }
    ghost var frames, owner := env.Frames(), env.Resolve(name);
    r := AssignIn(env, name, v.value, heap');
    if pure {
      assert frames == old(env.Frames()) && owner == old(env.Resolve(name));
    }
  }

  /** The value of one entry of an object literal: an entry without a value looks its key
      up in the scope. */
  method EvalProperty(p: Property, env: Environment, fuel: nat, input: string, ghost heap: set<Environment>)
    returns (r: Outcome, ghost heap': set<Environment>)
    requires Closed(heap) && env in heap
    modifies heap
    ensures Evolved(heap, heap', null)
    ensures r.Ok? ==> EnvsIn(r.value) <= heap'
    ensures p.value.None? ==> r == old(env.LookupVar(p.key)) && heap' == heap
    ensures IsPureProperty(p) ==> r == PureProp(p, old(env.Frames())) && heap' == heap && unchanged(heap)
    decreases fuel, p, 0
  {
    if p.value.None? {
      LookupWithin(env, heap, p.key);
      LookupAgrees(env, p.key);
      r, heap' := env.LookupVar(p.key), heap;
    } else {
      r, heap' := Evaluate(p.value.value, env, fuel, input, heap);
    }
  }

  /** Builds an object from the literal's entries in order, a later key replacing an
      earlier one. */
  method EvalObject(e: Expr, env: Environment, fuel: nat, input: string, ghost heap: set<Environment>)
    returns (r: Outcome, ghost heap': set<Environment>, ghost values: seq<Value>)
    requires e.ObjectLit? && Closed(heap) && env in heap
    modifies heap
    ensures Evolved(heap, heap', null)
    ensures r.Ok? ==> EnvsIn(r.value) <= heap'
    ensures r.Ok? ==> |values| == |e.properties| && r == Ok(ObjectVal(PropertyMap(e.properties, values)))
    ensures IsPure(e) ==>
      && r == PureEval(e, old(env.Frames())) && heap' == heap && unchanged(heap)
      && (r.Ok? ==> PureProps(e.properties, old(env.Frames())) == Ok(values))
    decreases fuel, e, 0
  {
    var properties: map<string, Value> := map[];
    values, heap' := [], heap;
    for i := 0 to |e.properties|
      invariant Evolved(heap, heap', null) && env in heap'
      invariant |values| == i && properties == PropertyMap(e.properties[..i], values)
      invariant forall k :: k in properties ==> EnvsIn(properties[k]) <= heap'
      invariant IsPure(e) ==>
        heap' == heap && unchanged(heap) && PureProps(e.properties[..i], old(env.Frames())) == Ok(values)
    {
      var p := e.properties[i];
      if IsPure(e) {
        FramesUnchanged(heap, env);
      }
      var v;
      v, heap' := EvalProperty(p, env, fuel, input, heap');
      assert e.properties[..i + 1][..i] == e.properties[..i];
      if v.Err? {
        if IsPure(e) {
          PurePropsPrefixError(e.properties, i + 1, old(env.Frames()));
        }
        return v, heap', values;
      }
      properties := properties[p.key := v.value];
      values := values + [v.value];
    }
    assert e.properties[..|e.properties|] == e.properties;
    r := Ok(ObjectVal(properties));
  }

  /** Reads a property. The object is an identifier, looked up, or a member access,
      evaluated; the property is read by its identifier name even in the bracket form. */
  method EvalMember(e: Expr, env: Environment, fuel: nat, input: string, ghost heap: set<Environment>)
    returns (r: Outcome, ghost heap': set<Environment>, ghost obj: Option<Value>)
    requires e.Member? && Closed(heap) && env in heap
    modifies heap
    ensures Evolved(heap, heap', null)
    ensures r.Ok? ==> EnvsIn(r.value) <= heap'
    ensures !(e.obj.Identifier? || e.obj.Member?) ==>
      && r == Err(if e.property.Identifier? then InvalidMemberObject else PropertyWithoutName)
      && heap' == heap
    ensures e.obj.Identifier? ==>
      && heap' == heap
      && (obj.Some? <==> old(env.LookupVar(e.obj.name)).Ok?)
      && (obj.Some? ==> obj.value == old(env.LookupVar(e.obj.name)).value)
    ensures r.Ok? ==> obj.Some?
    ensures obj.Some? && !e.property.Identifier? ==> r == Err(PropertyWithoutName)
    ensures obj.Some? && e.property.Identifier? && !obj.value.ObjectVal? ==> r == Err(NotAnObject)
    ensures obj.Some? && e.property.Identifier? && obj.value.ObjectVal? ==>
      r == (if e.property.name in obj.value.properties then Ok(obj.value.properties[e.property.name])
            else Err(MissingProperty(e.property.name)))
    ensures IsPure(e) ==> r == PureEval(e, old(env.Frames())) && heap' == heap && unchanged(heap)
    decreases fuel, e, 0
  {
    var v: Outcome;
    if e.obj.Identifier? {
      LookupWithin(env, heap, e.obj.name);
      LookupAgrees(env, e.obj.name);
      v, heap' := env.LookupVar(e.obj.name), heap;
    } else if e.obj.Member? {
      v, heap' := Evaluate(e.obj, env, fuel, input, heap);
    } else {
      return Err(if e.property.Identifier? then InvalidMemberObject else PropertyWithoutName), heap, None;
    }
    if v.Err? {
      return v, heap', None;
    }
    obj := Some(v.value);
    if !e.property.Identifier? {
      return Err(PropertyWithoutName), heap', obj;
    }
    if !v.value.ObjectVal? {
      return Err(NotAnObject), heap', obj;
    }
    var key := e.property.name;
    if key in v.value.properties {
      r := Ok(v.value.properties[key]);
    } else {
      r := Err(MissingProperty(key));
    }
  }

  /** Evaluates the arguments of a call in order, stopping at the first that raises. */
  method EvalArgs(args: seq<Expr>, env: Environment, fuel: nat, input: string, ghost heap: set<Environment>)
    returns (r: Result<seq<Value>, RuntimeError>, ghost heap': set<Environment>)
    requires Closed(heap) && env in heap
    modifies heap
    ensures Evolved(heap, heap', null)
    ensures r.Ok? ==> |r.value| == |args| && forall j :: 0 <= j < |args| ==> EnvsIn(r.value[j]) <= heap'
    ensures r.Ok? ==> forall j :: 0 <= j < |args| && args[j].NumericLiteral? ==>
      r.value[j] == NumberVal(args[j].value, args[j].isFloat)
    ensures AllPure(args) ==> var F := old(env.Frames());
      && heap' == heap && unchanged(heap)
      && (r.Ok? <==> forall j | 0 <= j < |args| :: PureEval(args[j], F).Ok?)
      && (r.Ok? ==> forall j | 0 <= j < |args| :: PureEval(args[j], F) == Ok(r.value[j]))
      && (r.Err? ==> exists j :: 0 <= j < |args| && PureEval(args[j], F) == Err(r.error)
                       && forall k | 0 <= k < j :: PureEval(args[k], F).Ok?)
    decreases fuel, args, 0
  {
    var vals: seq<Value> := [];
    heap' := heap;
    for i := 0 to |args|
      invariant Evolved(heap, heap', null) && env in heap'
      invariant |vals| == i && forall j :: 0 <= j < i ==> EnvsIn(vals[j]) <= heap'
      invariant forall j :: 0 <= j < i && args[j].NumericLiteral? ==> vals[j] == NumberVal(args[j].value, args[j].isFloat)
      invariant AllPure(args) ==>
        && heap' == heap && unchanged(heap)
        && forall j | 0 <= j < i :: PureEval(args[j], old(env.Frames())) == Ok(vals[j])
    {
      if AllPure(args) {
        FramesUnchanged(heap, env);
      }
      var a;
      a, heap' := Evaluate(args[i], env, fuel, input, heap');
      if a.Err? {
        return Err(a.error), heap';
      }
      vals := vals + [a.value];
    }
    r := Ok(vals);
  }

  /** Declares the parameters, in order and not constant, in the fresh scope `sc`, each bound
      to the argument at its position. It succeeds exactly when every parameter has an
      argument and no parameter name repeats; a parameter past the last argument raises. */
  method BindParams(sc: Environment, params: seq<string>, args: seq<Value>, ghost heap: set<Environment>)
    returns (r: Result<(), RuntimeError>)
    requires Closed(heap) && sc in heap && sc.variables == map[] && sc.constants == []
    requires forall j :: 0 <= j < |args| ==> EnvsIn(args[j]) <= heap
    modifies sc
    ensures Evolved(heap, heap, sc)
    ensures r.Ok? <==> |params| <= |args| && Distinct(params)
    ensures r.Ok? ==> sc.variables == ParamMap(params, args) && sc.constants == []
    ensures Distinct(params) && |args| < |params| ==> r == Err(MissingArgument(|args|))
  {
    for i := 0 to |params|
      invariant i <= |args| && Distinct(params[..i])
      invariant sc.variables == ParamMap(params[..i], args) && sc.constants == []
      invariant forall k :: k in sc.variables ==> EnvsIn(sc.variables[k]) <= heap
    {
      if i >= |args| {
        AfterBind(heap, sc);
        return Err(MissingArgument(i));
      }
      ParamMapBinds(params[..i], args);
      var d := sc.DeclareVar(params[i], args[i], false);
      if d.Err? {
        assert params[i] in params[..i];
        AfterBind(heap, sc);
        return Err(d.error);
      }
      assert params[..i + 1][..i] == params[..i];
    }
    assert params[..|params|] == params;
    AfterBind(heap, sc);
    r := Ok(());
  }

  /** The scope a call runs in: a new scope under the function's declaration scope, holding
      the parameters bound to the arguments. */
  method EnterCall(fn: Value, args: seq<Value>, ghost heap: set<Environment>)
    returns (sc: Environment, b: Result<(), RuntimeError>, ghost heap': set<Environment>)
    requires fn.FunctionVal? && Closed(heap) && fn.env in heap
    requires forall j :: 0 <= j < |args| ==> EnvsIn(args[j]) <= heap
    modifies heap
    ensures fresh(sc) && heap' == heap + {sc} && Evolved(heap, heap', null) && sc.parent == fn.env
    ensures b.Ok? <==> |fn.params| <= |args| && Distinct(fn.params)
    ensures b.Ok? ==> sc.variables == ParamMap(fn.params, args) && sc.constants == []
  {
    sc, heap' := OpenScope(fn.env, heap);
    b := BindParams(sc, fn.params, args, heap');
  }

  /** Runs a user function on argument values: a new scope whose parent is the function's
      declaration scope receives the parameters, and the body runs there. `bound` is that
      scope's bindings as the body starts. */
  method CallFunction(fn: Value, args: seq<Value>, fuel: nat, input: string, ghost heap: set<Environment>)
    returns (r: Outcome, ghost heap': set<Environment>, ghost scope: Environment?, ghost bound: map<string, Value>)
    requires fn.FunctionVal? && Closed(heap) && fn.env in heap
    requires forall j :: 0 <= j < |args| ==> EnvsIn(args[j]) <= heap
    modifies heap
    ensures Evolved(heap, heap', null)
    ensures r.Ok? ==> EnvsIn(r.value) <= heap'
    ensures |args| < |fn.params| ==> r.Err?
    ensures r.Ok? ==>
      && |fn.params| <= |args| && Distinct(fn.params) && bound == ParamMap(fn.params, args)
      && scope != null && scope in heap' && scope !in heap && scope.parent == fn.env
      && forall k :: k in fn.params ==> k in scope.variables && k !in scope.constants
    decreases fuel, fn, 0
  {
    var sc, b;
    sc, b, heap' := EnterCall(fn, args, heap);
    scope := sc;
    bound := sc.variables;
    if b.Err? {
      return Err(b.error), heap', sc, bound;
    }
    ParamMapBinds(fn.params, args);
    r, heap' := EvalStmt(fn.body, sc, fuel, input, heap');
    forall k | k in fn.params
      ensures k in sc.variables && k !in sc.constants
    {
      assert k in bound;
    }
  }

  /** Evaluates the callee of call `e` and applies it to the argument values. A built-in runs
      without touching the scopes (`con.in` gives the input line, the print functions give
      no value); a user function runs through `CallFunction` with one unit of fuel less;
      any other callee raises. */
  method ApplyCallee(e: Expr, args: seq<Value>, env: Environment, fuel: nat, input: string,
                     ghost heap: set<Environment>)
    returns (r: Outcome, ghost heap': set<Environment>, ghost fn: Option<Value>, ghost scope: Environment?)
    requires e.Call? && Closed(heap) && env in heap
    requires forall j :: 0 <= j < |args| ==> EnvsIn(args[j]) <= heap
    modifies heap
    ensures Evolved(heap, heap', null)
    ensures r.Ok? ==> EnvsIn(r.value) <= heap'
    ensures r.Ok? ==> fn.Some?
    ensures fn.Some? && !(fn.value.NativeFn? || fn.value.FunctionVal?) ==> r == Err(NotCallable)
    ensures fn.Some? && fn.value.NativeFn? ==>
      r == Ok(if fn.value.native == InputIn then StringVal(input) else NoValue)
    ensures fn.Some? && fn.value.FunctionVal? && fuel == 0 ==> r == Err(OutOfFuel)
    ensures fn.Some? && fn.value.FunctionVal? && |args| < |fn.value.params| ==> r.Err?
    ensures r.Ok? && fn.value.FunctionVal? ==>
      && scope != null && scope in heap' && scope !in heap
      && scope.parent == fn.value.env
      && forall k :: k in fn.value.params ==> k in scope.variables && k !in scope.constants
    ensures IsPure(e.callee) ==> var c := PureEval(e.callee, old(env.Frames()));
      && (c.Err? ==> r == c && fn.None? && heap' == heap)
      && (c.Ok? ==> fn == Some(c.value))
    decreases fuel, e, 0
  {
    var f;
    f, heap' := Evaluate(e.callee, env, fuel, input, heap);
    if f.Err? {
      return f, heap', None, null;
    }
    fn, scope := Some(f.value), null;
    match f.value
    case NativeFn(k) =>
      r := Ok(if k == InputIn then StringVal(input) else NoValue);
    case FunctionVal(_, _, _, _) =>
      if fuel == 0 {
        return Err(OutOfFuel), heap', fn, null;
      }
      ghost var bound;
      r, heap', scope, bound := CallFunction(f.value, args, fuel - 1, input, heap');
    case _ =>
      r := Err(NotCallable);
  }

  /** Calls a function: the arguments are evaluated first, in order, then the callee is
      evaluated and applied to their values. */
  method EvalCall(e: Expr, env: Environment, fuel: nat, input: string, ghost heap: set<Environment>)
    returns (r: Outcome, ghost heap': set<Environment>, ghost args: seq<Value>, ghost callee: Option<Value>,
             ghost scope: Environment?)
    requires e.Call? && Closed(heap) && env in heap
    modifies heap
    ensures Evolved(heap, heap', null)
    ensures r.Ok? ==> EnvsIn(r.value) <= heap'
    ensures r.Ok? ==> callee.Some?
    ensures callee.Some? ==> |args| == |e.arguments|
    ensures callee.Some? && !(callee.value.NativeFn? || callee.value.FunctionVal?) ==> r == Err(NotCallable)
    ensures callee.Some? && callee.value.NativeFn? ==>
      r == Ok(if callee.value.native == InputIn then StringVal(input) else NoValue)
    ensures callee.Some? && callee.value.FunctionVal? && fuel == 0 ==> r == Err(OutOfFuel)
    ensures callee.Some? && callee.value.FunctionVal? && |args| < |callee.value.params| ==> r.Err?
    ensures r.Ok? && callee.value.FunctionVal? ==>
      && scope != null && scope in heap' && scope !in heap
      && scope.parent == callee.value.env
      && forall k :: k in callee.value.params ==> k in scope.variables && k !in scope.constants
    ensures AllPure(e.arguments) ==> var F, es := old(env.Frames()), e.arguments;
      && ((exists j :: 0 <= j < |es| && PureEval(es[j], F).Err?) ==>
            && callee.None? && heap' == heap
            && exists j :: 0 <= j < |es| && r == PureEval(es[j], F) && forall k | 0 <= k < j :: PureEval(es[k], F).Ok?)
      && (callee.Some? ==> forall j | 0 <= j < |es| :: PureEval(es[j], F) == Ok(args[j]))
      && ((forall j | 0 <= j < |es| :: PureEval(es[j], F).Ok?) && IsPure(e.callee) ==>
            var c := PureEval(e.callee, F);
            && (c.Err? ==> r == c && callee.None? && heap' == heap)
            && (c.Ok? ==> callee == Some(c.value)))
    decreases fuel, e, 1
  {
    var a;
    a, heap' := EvalArgs(e.arguments, env, fuel, input, heap);
    if a.Err? {
      return Err(a.error), heap', [], None, null;
    }
    if AllPure(e.arguments) {
      FramesUnchanged(heap, env);
    }
    args := a.value;
    r, heap', callee, scope := ApplyCallee(e, a.value, env, fuel, input, heap');
  }

  /** Evaluates a statement in `env`; only `env` may receive new names. */
  method EvalStmt(s: Stmt, env: Environment, fuel: nat, input: string, ghost heap: set<Environment>)
    returns (r: Outcome, ghost heap': set<Environment>)
    requires Closed(heap) && env in heap
    modifies heap
    ensures Evolved(heap, heap', env)
    ensures r.Ok? ==> EnvsIn(r.value) <= heap'
    ensures r.Ok? && !s.ExprStmt? && !s.Block? ==> r.value == NoValue
    ensures PureStmt(s) ==> r == PureEval(s.expression, old(env.Frames())) && heap' == heap && unchanged(heap)
    decreases fuel, s, 2
  {
    match s
    case VarDecl(_, _, _) =>
      r, heap' := EvalVarDecl(s, env, fuel, input, heap);
    case FnDecl(_, _, _) =>
      r, heap' := EvalFnDecl(s, env, heap);
    case If(_, _, _) =>
      ghost var cond;
      r, heap', cond := EvalIf(s, env, fuel, input, heap);
    case While(_, _) =>
      ghost var last;
      r, heap', last := EvalWhile(s, env, fuel, input, heap);
    case Block(statements) =>
      ghost var results;
      r, heap', results := EvalProgram(statements, env, fuel, input, heap);
    case ExprStmt(x) =>
      r, heap' := Evaluate(x, env, fuel, input, heap);
  }

  /** Runs a statement list in order in `env` itself, with no new scope; the value is the
      last statement's, or null for an empty list. A program and a block both run this way. */
  method EvalProgram(body: seq<Stmt>, env: Environment, fuel: nat, input: string, ghost heap: set<Environment>)
    returns (r: Outcome, ghost heap': set<Environment>, ghost results: seq<Value>)
    requires Closed(heap) && env in heap
    modifies heap
    ensures Evolved(heap, heap', env)
    ensures r.Ok? ==> EnvsIn(r.value) <= heap'
    ensures r.Ok? ==> |results| == |body| && r.value == LastOr(results)
    ensures |body| == 0 ==> r == Ok(NullVal) && heap' == heap
    ensures (forall j | 0 <= j < |body| :: PureStmt(body[j])) ==> var F := old(env.Frames());
      && heap' == heap && unchanged(heap)
      && (r.Ok? <==> forall j | 0 <= j < |body| :: PureEval(body[j].expression, F).Ok?)
      && (r.Ok? ==> forall j | 0 <= j < |body| :: PureEval(body[j].expression, F) == Ok(results[j]))
      && (r.Err? ==> exists j :: 0 <= j < |body| && r == PureEval(body[j].expression, F)
                       && forall k | 0 <= k < j :: PureEval(body[k].expression, F).Ok?)
    decreases fuel, body, 1
  {
    var last: Value := NullVal;
    heap', results := heap, [];
    ghost var pure := forall j | 0 <= j < |body| :: PureStmt(body[j]);
    for i := 0 to |body|
      invariant Evolved(heap, heap', env) && env in heap'
      invariant i == 0 ==> heap' == heap
      invariant |results| == i && last == LastOr(results) && EnvsIn(last) <= heap'
      invariant pure ==>
        && heap' == heap && unchanged(heap)
        && forall j | 0 <= j < i :: PureEval(body[j].expression, old(env.Frames())) == Ok(results[j])
    {
      if pure {
        FramesUnchanged(heap, env);
      }
      var v;
      v, heap' := EvalStmt(body[i], env, fuel, input, heap');
      assert Evolved(heap, heap', env);
      if v.Err? {
        return v, heap', results;
      }
      last := v.value;
      results := results + [v.value];
    }
    r := Ok(last);
  }

  /** Every declarator of the list has no initializer. */
  predicate Bare(decls: seq<Declarator>)
  {
    forall j :: 0 <= j < |decls| ==> decls[j].init.None?
  }

  /** What declaring the first `n` declarators has done to a scope whose bindings went from
      `before` to `vars` and whose constants went from `beforeConstants` to `constants`: the
      names are distinct, were new and are now bound; they were appended to the constants
      exactly for a constant declaration; and for a list without initializers, they are
      bound to null. */
  ghost predicate DeclaredSoFar(vars: map<string, Value>, constants: seq<string>, before: map<string, Value>,
                                beforeConstants: seq<string>, decls: seq<Declarator>, n: nat, constant: bool)
    requires n <= |decls|
  {
    && before.Keys <= vars.Keys
    && DistinctNames(decls[..n])
    && (forall j :: 0 <= j < n ==> decls[j].name !in before && decls[j].name in vars)
    && constants == beforeConstants + (if constant then Names(decls[..n]) else [])
    && (Bare(decls) ==> vars == before + NullBindings(decls[..n]))
  }

  /** Declaring the next declarator's name, new in the scope, extends what has been declared. */
  lemma DeclaredStep(vars: map<string, Value>, constants: seq<string>, before: map<string, Value>,
                     beforeConstants: seq<string>, decls: seq<Declarator>, i: nat, constant: bool, value: Value)
    requires i < |decls| && DeclaredSoFar(vars, constants, before, beforeConstants, decls, i, constant)
    requires decls[i].name !in vars && (Bare(decls) ==> value == NullVal)
    ensures DeclaredSoFar(vars[decls[i].name := value], constants + (if constant then [decls[i].name] else []),
                          before, beforeConstants, decls, i + 1, constant)
  {
    assert decls[..i + 1] == decls[..i] + [decls[i]];
    assert decls[..i + 1][..i] == decls[..i];
    if Bare(decls) {
      NullBindingsStep(before, decls, i);
    }
  }

  /** Evaluating an initializer rebinds no name and declares nothing, which keeps what has
      been declared. */
  lemma DeclaredSameKeys(vars: map<string, Value>, vars': map<string, Value>, constants: seq<string>,
                         before: map<string, Value>, beforeConstants: seq<string>, decls: seq<Declarator>, n: nat,
                         constant: bool)
    requires n <= |decls| && !Bare(decls) && vars.Keys == vars'.Keys
    requires DeclaredSoFar(vars, constants, before, beforeConstants, decls, n, constant)
    ensures DeclaredSoFar(vars', constants, before, beforeConstants, decls, n, constant)
  {
  }

  /** The value a declarator binds: its initializer's value, or null when it has none. */
  method EvalInit(d: Declarator, env: Environment, fuel: nat, input: string, ghost heap: set<Environment>)
    returns (v: Outcome, ghost heap': set<Environment>)
    requires Closed(heap) && env in heap
    modifies heap
    ensures Evolved(heap, heap', null)
    ensures v.Ok? ==> EnvsIn(v.value) <= heap'
    ensures d.init.None? ==> v == Ok(NullVal) && heap' == heap && unchanged(heap)
    ensures (d.init.Some? ==> IsPure(d.init.value)) ==>
      v == InitValue(d, old(env.Frames())) && heap' == heap && unchanged(heap)
    decreases fuel, d, 0
  {
    if d.init.None? {
      v, heap' := Ok(NullVal), heap;
    } else {
      v, heap' := Evaluate(d.init.value, env, fuel, input, heap);
    }
  }

  /** Declares declarator `i`'s name, bound to `value`, in `env` with the statement's
      constant flag; a name already bound in `env` raises. */
  method DeclareNext(decls: seq<Declarator>, i: nat, constant: bool, env: Environment, value: Value,
                     ghost heap: set<Environment>, ghost before: map<string, Value>, ghost beforeConstants: seq<string>)
    returns (r: Outcome)
    requires i < |decls| && Closed(heap) && env in heap && EnvsIn(value) <= heap
    requires DeclaredSoFar(env.variables, env.constants, before, beforeConstants, decls, i, constant)
    requires Bare(decls) ==> value == NullVal
    modifies env
    ensures Evolved(heap, heap, env)
    ensures r.Ok? ==>
      r.value == NoValue && DeclaredSoFar(env.variables, env.constants, before, beforeConstants, decls, i + 1, constant)
    ensures r.Err? && Bare(decls) ==>
      decls[i].name in before || exists j :: 0 <= j < i && decls[j].name == decls[i].name
    ensures decls[i].name in old(env.variables) ==> r == Err(AlreadyDeclared(decls[i].name)) && unchanged(env)
    ensures decls[i].name !in old(env.variables) ==> r.Ok? && env.variables == old(env.variables)[decls[i].name := value]
  {
    ghost var vars, constants := env.variables, env.constants;
    r := DeclareIn(env, decls[i].name, value, constant, heap);
    if r.Ok? {
      DeclaredStep(vars, constants, before, beforeConstants, decls, i, constant, value);
      r := Ok(NoValue);
    }
  }

  /** Declares declarator `i` in `env` with the statement's constant flag: its initializer
      is evaluated first (none declares null), then the name is declared; a name already
      bound in `env` raises. */
  method EvalDeclarator(decls: seq<Declarator>, i: nat, constant: bool, env: Environment, fuel: nat, input: string,
                        ghost heap: set<Environment>, ghost before: map<string, Value>, ghost beforeConstants: seq<string>)
    returns (r: Outcome, ghost heap': set<Environment>)
    requires i < |decls| && Closed(heap) && env in heap
    requires DeclaredSoFar(env.variables, env.constants, before, beforeConstants, decls, i, constant)
    modifies heap
    ensures Evolved(heap, heap', env)
    ensures r.Ok? ==>
      r.value == NoValue && DeclaredSoFar(env.variables, env.constants, before, beforeConstants, decls, i + 1, constant)
    ensures r.Err? && Bare(decls) ==>
      decls[i].name in before || exists j :: 0 <= j < i && decls[j].name == decls[i].name
    ensures (decls[i].init.Some? ==> IsPure(decls[i].init.value)) ==>
      var name, v := decls[i].name, InitValue(decls[i], old(env.Frames()));
      && heap' == heap && unchanged(heap - {env})
      && (v.Err? ==> r == v)
      && (v.Ok? && name in old(env.variables) ==> r == Err(AlreadyDeclared(name)))
      && (v.Ok? && name !in old(env.variables) ==> r.Ok? && env.variables == old(env.variables)[name := v.value])
    decreases fuel, decls, 0
  {
    ghost var vars := env.variables;
    var v;
    v, heap' := EvalInit(decls[i], env, fuel, input, heap);
    if v.Err? {
      return v, heap';
    }
    if decls[i].init.Some? {
      assert Kept(env, false);
      DeclaredSameKeys(vars, env.variables, env.constants, before, beforeConstants, decls, i, constant);
    }
    r := DeclareNext(decls, i, constant, env, v.value, heap', before, beforeConstants);
  }

  /** `EvalDeclarator` as a step of `PureDeclare`: when every initializer of the statement
      is pure and the earlier declarators left `env` as `PureDeclare` says, declaring
      declarator `i` leaves it as `PureDeclare` of one more declarator says. */
  method DeclareInOrder(decls: seq<Declarator>, i: nat, constant: bool, env: Environment, fuel: nat, input: string,
                        ghost heap: set<Environment>, ghost before: map<string, Value>, ghost beforeConstants: seq<string>,
                        ghost outer: Frames)
    returns (r: Outcome, ghost heap': set<Environment>)
    requires i < |decls| && Closed(heap) && env in heap
    requires DeclaredSoFar(env.variables, env.constants, before, beforeConstants, decls, i, constant)
    modifies heap
    ensures Evolved(heap, heap', env)
    ensures r.Ok? ==>
      r.value == NoValue && DeclaredSoFar(env.variables, env.constants, before, beforeConstants, decls, i + 1, constant)
    ensures r.Err? && Bare(decls) ==>
      decls[i].name in before || exists j :: 0 <= j < i && decls[j].name == decls[i].name
    ensures PureInits(decls) && PureDeclare(decls[..i], before, outer) == Ok(old(env.variables))
            && old(env.Outer()) == outer ==>
      && heap' == heap && env.Outer() == outer
      && PureDeclare(decls[..i + 1], before, outer) == if r.Err? then Err(r.error) else Ok(env.variables)
    decreases fuel, decls, 1
  {
    ghost var vars := env.variables;
    ghost var pure := PureInits(decls) && PureDeclare(decls[..i], before, outer) == Ok(vars) && env.Outer() == outer;
    if pure {
      FramesSplit(env);
    }
    r, heap' := EvalDeclarator(decls, i, constant, env, fuel, input, heap, before, beforeConstants);
    if pure {
      PureDeclareStep(decls, i, before, outer, vars, env.variables, r);
      OuterKept(heap, env);
    }
  }

  /** Declares each declarator in order in `env`, with the statement's constant flag. Every
      declared name ends up bound in `env`, listed as constant exactly for a constant
      declaration; a name already bound in `env`, or repeated in the list, raises. */
  method EvalVarDecl(s: Stmt, env: Environment, fuel: nat, input: string, ghost heap: set<Environment>)
    returns (r: Outcome, ghost heap': set<Environment>)
    requires s.VarDecl? && Closed(heap) && env in heap
    modifies heap
    ensures Evolved(heap, heap', env)
    ensures r.Ok? ==> r.value == NoValue && DistinctNames(s.declarations)
    ensures r.Ok? ==>
      && (forall j :: 0 <= j < |s.declarations| ==>
            s.declarations[j].name !in old(env.variables) && s.declarations[j].name in env.variables)
      && env.constants == old(env.constants) + (if s.constant then Names(s.declarations) else [])
    ensures Bare(s.declarations) ==>
      && (r.Ok? <==> DistinctNames(s.declarations) && forall d :: d in s.declarations ==> d.name !in old(env.variables))
      && (r.Ok? ==> env.variables == old(env.variables) + NullBindings(s.declarations))
    ensures PureInits(s.declarations) ==> var d := PureDeclare(s.declarations, old(env.variables), old(env.Outer()));
      && heap' == heap && env.Outer() == old(env.Outer())
      && (d.Err? ==> r == Err(d.error))
      && (d.Ok? ==> r.Ok? && env.variables == d.value)
    decreases fuel, s, 0
  {
    r, heap' := EvalDeclarations(s.declarations, s.constant, env, fuel, input, heap);
    if r.Ok? {
      DeclaredAll(env.variables, env.constants, old(env.variables), old(env.constants), s.declarations, s.constant);
    }
  }

  /** The loop of `EvalVarDecl`: declarator after declarator, stopping at the first that
      raises. */
  method EvalDeclarations(decls: seq<Declarator>, constant: bool, env: Environment, fuel: nat, input: string,
                          ghost heap: set<Environment>)
    returns (r: Outcome, ghost heap': set<Environment>)
    requires Closed(heap) && env in heap
    modifies heap
    ensures Evolved(heap, heap', env)
    ensures r.Ok? ==>
      r.value == NoValue && DeclaredSoFar(env.variables, env.constants, old(env.variables), old(env.constants), decls, |decls|, constant)
    ensures r.Err? && Bare(decls) ==>
      exists i :: 0 <= i < |decls| &&
        (decls[i].name in old(env.variables) || exists j :: 0 <= j < i && decls[j].name == decls[i].name)
    ensures PureInits(decls) ==> var d := PureDeclare(decls, old(env.variables), old(env.Outer()));
      && heap' == heap && env.Outer() == old(env.Outer())
      && (d.Err? ==> r == Err(d.error))
      && (d.Ok? ==> r.Ok? && env.variables == d.value)
    decreases fuel, decls, 2
  {
    ghost var before, beforeConstants := env.variables, env.constants;
    ghost var pure, outer := PureInits(decls), env.Outer();
    heap' := heap;
    for i := 0 to |decls|
      invariant Evolved(heap, heap', env) && env in heap'
      invariant DeclaredSoFar(env.variables, env.constants, before, beforeConstants, decls, i, constant)
      invariant pure ==>
        heap' == heap && env.Outer() == outer && PureDeclare(decls[..i], before, outer) == Ok(env.variables)
    {
      var v;
      v, heap' := DeclareInOrder(decls, i, constant, env, fuel, input, heap', before, beforeConstants, outer);
      assert Evolved(heap, heap', env);
      if v.Err? {
        if pure {
          PureDeclarePrefixError(decls, i + 1, before, outer);
        }
        return v, heap';
      }
    }
    assert decls[..|decls|] == decls;
    r := Ok(NoValue);
  }

  /** Once every declarator is declared, the names are distinct and new, bound in the scope,
      listed as constants exactly for a constant declaration, and bound to null when no
      declarator has an initializer. */
  lemma DeclaredAll(vars: map<string, Value>, constants: seq<string>, before: map<string, Value>,
                    beforeConstants: seq<string>, decls: seq<Declarator>, constant: bool)
    requires DeclaredSoFar(vars, constants, before, beforeConstants, decls, |decls|, constant)
    ensures DistinctNames(decls)
    ensures forall j :: 0 <= j < |decls| ==> decls[j].name !in before && decls[j].name in vars
    ensures forall d :: d in decls ==> d.name !in before
    ensures constants == beforeConstants + (if constant then Names(decls) else [])
    ensures Bare(decls) ==> vars == before + NullBindings(decls)
  {
    assert decls[..|decls|] == decls;
  }

  /** Binds the function, closing over `env`, as a constant of `env`; the name must be new
      in `env`. */
  method EvalFnDecl(s: Stmt, env: Environment, ghost heap: set<Environment>)
    returns (r: Outcome, ghost heap': set<Environment>)
    requires s.FnDecl? && Closed(heap) && env in heap
    modifies heap
    ensures Evolved(heap, heap', env) && heap' == heap
    ensures s.name in old(env.variables) ==>
      r == Err(AlreadyDeclared(s.name)) && env.variables == old(env.variables) && env.constants == old(env.constants)
    ensures s.name !in old(env.variables) ==>
      && r == Ok(NoValue)
      && env.variables == old(env.variables)[s.name := FunctionVal(s.name, s.params, env, s.body)]
      && env.constants == old(env.constants) + [s.name]
  {
    var fn := FunctionVal(s.name, s.params, env, s.body);
    var declared := DeclareIn(env, s.name, fn, true, heap);
    heap' := heap;
    if declared.Err? {
      return declared, heap';
    }
    r := Ok(NoValue);
  }

  /** Evaluates the condition, then the consequent when its value is true and otherwise
      the alternate, if any. */
  method EvalIf(s: Stmt, env: Environment, fuel: nat, input: string, ghost heap: set<Environment>)
    returns (r: Outcome, ghost heap': set<Environment>, ghost cond: Option<Value>)
    requires s.If? && Closed(heap) && env in heap
    modifies heap
    ensures Evolved(heap, heap', env)
    ensures r.Ok? ==> r.value == NoValue && cond.Some? && Truthy(cond.value).Ok?
    ensures cond.Some? && Truthy(cond.value).Err? ==> r == Err(NoTruthValue)
    ensures IsPure(s.condition) ==> var F := old(env.Frames()); var c := PureEval(s.condition, F);
      && (c.Err? ==> r == c && cond.None? && heap' == heap)
      && (c.Ok? ==> cond == Some(c.value))
      && (c.Ok? && Truthy(c.value) == Ok(true) && PureStmt(s.consequent) ==>
            r == Discard(PureEval(s.consequent.expression, F)) && heap' == heap && unchanged(heap))
      && (c.Ok? && Truthy(c.value) == Ok(false) && s.alternate.None? ==>
            r == Ok(NoValue) && heap' == heap && unchanged(heap))
      && (c.Ok? && Truthy(c.value) == Ok(false) && s.alternate.Some? && PureStmt(s.alternate.value) ==>
            r == Discard(PureEval(s.alternate.value.expression, F)) && heap' == heap && unchanged(heap))
    decreases fuel, s, 0
  {
    var c, h1 := Evaluate(s.condition, env, fuel, input, heap);
    if c.Err? {
      return c, h1, None;
    }
    cond := Some(c.value);
    var truth := Truthy(c.value);
    if truth.Err? {
      return Err(truth.error), h1, cond;
    }
    if IsPure(s.condition) {
      FramesUnchanged(heap, env);
    }
    var b: Outcome := Ok(NoValue);
    heap' := h1;
    if truth.value {
      b, heap' := EvalStmt(s.consequent, env, fuel, input, h1);
    } else if s.alternate.Some? {
      b, heap' := EvalStmt(s.alternate.value, env, fuel, input, h1);
    }
    r := if b.Err? then b else Ok(NoValue);
  }

  /** One round of a while loop: evaluates the condition and, when its value is true, runs
      the body, spending one unit of fuel. The result says whether the loop goes on. */
  method WhileRound(s: Stmt, env: Environment, fuel: nat, input: string, ghost heap: set<Environment>)
    returns (r: Result<bool, RuntimeError>, ghost heap': set<Environment>, ghost cond: Option<Value>)
    requires s.While? && Closed(heap) && env in heap
    modifies heap
    ensures Evolved(heap, heap', env)
    ensures r.Ok? ==> cond.Some? && Truthy(cond.value) == Ok(r.value)
    ensures r == Ok(true) ==> fuel > 0
    ensures cond.Some? && Truthy(cond.value).Err? ==> r == Err(NoTruthValue)
    ensures cond.Some? && Truthy(cond.value) == Ok(false) ==> r == Ok(false)
    ensures cond.Some? && Truthy(cond.value) == Ok(true) && fuel == 0 ==> r == Err(OutOfFuel)
    ensures IsPure(s.condition) ==> var c := PureEval(s.condition, old(env.Frames()));
      && (c.Err? ==> r == Err(c.error) && cond.None? && heap' == heap)
      && (c.Ok? ==> cond == Some(c.value))
      && (r == Ok(false) ==>
            && heap' == heap && unchanged(heap)
            && var now := PureEval(s.condition, env.Frames()); now.Ok? && Truthy(now.value) == Ok(false))
    decreases fuel, s, 0
  {
    var c;
    c, heap' := Evaluate(s.condition, env, fuel, input, heap);
    if c.Err? {
      return Err(c.error), heap', None;
    }
    if IsPure(s.condition) {
      FramesUnchanged(heap, env);
    }
    cond := Some(c.value);
    var truth := Truthy(c.value);
    if truth.Err? {
      return Err(truth.error), heap', cond;
    }
    if !truth.value {
      return Ok(false), heap', cond;
    }
    if fuel == 0 {
      return Err(OutOfFuel), heap', cond;
    }
    var b;
    b, heap' := EvalStmt(s.body, env, fuel, input, heap');
    if b.Err? {
      return Err(b.error), heap', cond;
    }
    r := Ok(true);
  }

  /** Repeats: evaluate the condition, stop when its value is false, else run the body.
      It ends normally only on a false condition. */
  method EvalWhile(s: Stmt, env: Environment, fuel: nat, input: string, ghost heap: set<Environment>)
    returns (r: Outcome, ghost heap': set<Environment>, ghost last: Option<Value>)
    requires s.While? && Closed(heap) && env in heap
    modifies heap
    ensures Evolved(heap, heap', env)
    ensures r.Ok? ==> r.value == NoValue && last.Some? && Truthy(last.value) == Ok(false)
    ensures last.Some? && Truthy(last.value).Err? ==> r == Err(NoTruthValue)
    ensures IsPure(s.condition) ==> var c := PureEval(s.condition, old(env.Frames()));
      && (c.Err? ==> r == c && heap' == heap)
      && (c.Ok? && Truthy(c.value) == Ok(false) ==> r == Ok(NoValue) && heap' == heap && unchanged(heap))
      && (r.Ok? ==> var now := PureEval(s.condition, env.Frames()); now.Ok? && Truthy(now.value) == Ok(false))
    decreases fuel, s, 1
  {
    var f: nat := fuel;
    heap', last := heap, None;
    while true
      invariant Evolved(heap, heap', env) && env in heap'
      invariant f <= fuel
      invariant last.Some? ==> Truthy(last.value) == Ok(true)
      invariant f == fuel ==> heap' == heap && unchanged(heap)
      invariant f < fuel && IsPure(s.condition) ==>
        var c := PureEval(s.condition, old(env.Frames())); c.Ok? && Truthy(c.value) == Ok(true)
      decreases f
    {
      if f == fuel && IsPure(s.condition) {
        FramesUnchanged(heap, env);
      }
      var go;
      go, heap', last := WhileRound(s, env, f, input, heap');
      if go.Err? {
        return Err(go.error), heap', last;
      }
      if !go.value {
        return Ok(NoValue), heap', last;
      }
      f := f - 1;
    }
  }
}
