/** A reference evaluator for the expressions that change no scope: literals, names, unary,
    binary and logical operators, object literals and member reads, with no assignment and
    no call inside. It reads the scopes only through their variable maps, innermost first
    (`Runtime.Environment.Frames`), so it says what such an expression is worth without
    looking at the heap. The evaluator's methods are proved to agree with it. */
module Reference {
  import opened Wrappers
  import opened Ast
  import opened Runtime
  import opened Operators

  /** The variable maps of a scope chain, innermost first. */
  type Frames = seq<map<string, Value>>

  /** Whether evaluating `e` can neither assign nor call. A member read whose object is
      neither a name nor a member read raises before evaluating anything. */
  predicate IsPure(e: Expr)
    decreases e, 1
  {
    match e
    case Assignment(_, _) => false
    case Call(_, _) => false
    case ObjectLit(props) => forall i | 0 <= i < |props| :: IsPureProperty(props[i])
    case Binary(l, _, r) => IsPure(l) && IsPure(r)
    case Logical(l, _, r) => IsPure(l) && IsPure(r)
    case Unary(_, x) => IsPure(x)
    case Member(obj, _, _) => !obj.Member? || IsPure(obj)
    case _ => true
  }

  /** An object-literal entry is pure when it is a shorthand entry or its value is. */
  predicate IsPureProperty(p: Property)
    decreases p, 0
  {
    p.value.None? || IsPure(p.value.value)
  }

  /** Every expression of the list is pure. */
  predicate AllPure(es: seq<Expr>)
  {
    forall j | 0 <= j < |es| :: IsPure(es[j])
  }

  /** An expression statement whose expression is pure. */
  predicate PureStmt(s: Stmt)
  {
    s.ExprStmt? && IsPure(s.expression)
  }

  /** What a statement that runs an expression for its effect gives: the expression's
      error, or no value. */
  function Discard(o: Outcome): (r: Outcome)
    ensures r.Ok? <==> o.Ok?
    ensures r.Ok? ==> r.value == NoValue
    ensures r.Err? ==> r == o
  {
    if o.Err? then o else Ok(NoValue)
  }

  /** Looking a name up through the frames, raising when no frame binds it. */
  function Lookup(frames: Frames, name: string): (r: Outcome)
    ensures r.Ok? <==> LookupFrames(frames, name).Some?
    ensures r.Ok? ==> r.value == LookupFrames(frames, name).value
    ensures r.Err? ==> r.error == Unresolved(name)
  {
    match LookupFrames(frames, name)
    case Some(v) => Ok(v)
    case None => Err(Unresolved(name))
  }

  /** Looking a name up through a scope chain is looking it up through its variable maps. */
  lemma LookupAgrees(env: Environment, name: string)
    requires env.Valid()
    ensures env.LookupVar(name) == Lookup(env.Frames(), name)
  {
  }

  /** The property map an object literal builds: entries in order, a later key replacing an
      earlier one. */
  function PropertyMap(props: seq<Property>, values: seq<Value>): map<string, Value>
    requires |props| == |values|
  {
    if |props| == 0 then map[]
    else PropertyMap(props[..|props| - 1], values[..|values| - 1])[props[|props| - 1].key := values[|values| - 1]]
  }

  /** The value of a pure expression in the given frames. Operands are evaluated left
      before right and both always, whatever the operator; the first error raised is the
      result. */
  function PureEval(e: Expr, frames: Frames): Outcome
    requires IsPure(e)
    decreases e, 2
  {
    match e
    case NumericLiteral(v, f) => Ok(NumberVal(v, f))
    case StringLiteral(t) => Ok(StringVal(t))
    case NullLiteral => Ok(NullVal)
    case Identifier(name) => Lookup(frames, name)
    case Binary(l, op, r) =>
      var a :- PureEval(l, frames);
      var b :- PureEval(r, frames);
      BinaryOp(a, op, b)
    case Logical(l, op, r) =>
      var a :- PureEval(l, frames);
      var b :- PureEval(r, frames);
      LogicalOp(a, op, b)
    case Unary(op, x) =>
      var a :- PureEval(x, frames);
      UnaryOp(op, a)
    case ObjectLit(props) =>
      var values :- PureProps(props, frames);
      Ok(ObjectVal(PropertyMap(props, values)))
    case Member(obj, property, _) =>
      var o :-
        if obj.Identifier? then Lookup(frames, obj.name)
        else if obj.Member? then PureEval(obj, frames)
        else Err(if property.Identifier? then InvalidMemberObject else PropertyWithoutName);
      Select(o, property)
  }

  /** Reading a property: by its name even in the bracket form, from an object only. */
  function Select(o: Value, property: Expr): Outcome
  {
    if !property.Identifier? then Err(PropertyWithoutName)
    else if !o.ObjectVal? then Err(NotAnObject)
    else if property.name in o.properties then Ok(o.properties[property.name])
    else Err(MissingProperty(property.name))
  }

  /** The value of one object-literal entry: a shorthand entry looks its key up. */
  function PureProp(p: Property, frames: Frames): Outcome
    requires IsPureProperty(p)
    decreases p, 2
  {
    if p.value.None? then Lookup(frames, p.key) else PureEval(p.value.value, frames)
  }

  /** The values of the entries, in order, or the first error. */
  function PureProps(props: seq<Property>, frames: Frames): (r: Result<seq<Value>, RuntimeError>)
    requires forall i | 0 <= i < |props| :: IsPureProperty(props[i])
    ensures r.Ok? ==> |r.value| == |props|
    decreases props, 3
  {
    if |props| == 0 then Ok([])
    else
      var values :- PureProps(props[..|props| - 1], frames);
      var v :- PureProp(props[|props| - 1], frames);
      Ok(values + [v])
  }

  /** The entry values succeed exactly when every entry does, and then each is its entry's
      value; otherwise the error is that of the first entry that raises. */
  lemma {:induction false} PurePropsElementwise(props: seq<Property>, frames: Frames)
    requires forall i | 0 <= i < |props| :: IsPureProperty(props[i])
    ensures var r := PureProps(props, frames);
      && (r.Ok? <==> forall i | 0 <= i < |props| :: PureProp(props[i], frames).Ok?)
      && (r.Ok? ==> forall i | 0 <= i < |props| :: PureProp(props[i], frames) == Ok(r.value[i]))
      && (r.Err? ==> exists i :: 0 <= i < |props| && PureProp(props[i], frames) == Err(r.error)
                       && forall k | 0 <= k < i :: PureProp(props[k], frames).Ok?)
    decreases |props|
  {
    if |props| > 0 {
      var n := |props| - 1;
      var init := props[..n];
      assert forall i | 0 <= i < n :: init[i] == props[i];
      PurePropsElementwise(init, frames);
    }
  }

  /** Once an entry raises, the entries after it do not change the error. */
  lemma {:induction false} PurePropsPrefixError(props: seq<Property>, n: nat, frames: Frames)
    requires n <= |props| && forall i | 0 <= i < |props| :: IsPureProperty(props[i])
    requires PureProps(props[..n], frames).Err?
    ensures PureProps(props, frames) == PureProps(props[..n], frames)
    decreases |props| - n
  {
    if n < |props| {
      var m := |props| - 1;
      assert props[..m][..n] == props[..n];
      PurePropsPrefixError(props[..m], n, frames);
      assert props[..|props|] == props;
    } else {
      assert props[..n] == props;
    }
  }

  /** The object holds exactly the keys of the literal. */
  lemma {:induction false} PropertyMapKeys(props: seq<Property>, values: seq<Value>)
    requires |props| == |values|
    ensures PropertyMap(props, values).Keys == set p | p in props :: p.key
  {
    if |props| > 0 {
      var n := |props| - 1;
      PropertyMapKeys(props[..n], values[..n]);
      assert props == props[..n] + [props[n]];
      KeysSnoc(props[..n], props[n]);
    }
  }

  /** The keys of a property list with one more property. */
  lemma KeysSnoc(props: seq<Property>, last: Property)
    ensures (set p | p in props + [last] :: p.key) == (set p | p in props :: p.key) + {last.key}
  {
    assert forall p :: p in props + [last] <==> p in props || p == last;
  }

  /** A key's value is the one given by its last occurrence in the literal. */
  lemma {:induction false} PropertyMapLastWins(props: seq<Property>, values: seq<Value>, i: nat)
    requires |props| == |values| && i < |props|
    requires forall j :: i < j < |props| ==> props[j].key != props[i].key
    ensures props[i].key in PropertyMap(props, values)
    ensures PropertyMap(props, values)[props[i].key] == values[i]
  {
    var n := |props| - 1;
    if i < n {
      PropertyMapLastWins(props[..n], values[..n], i);
    }
  }

  /** Every initializer of the list is pure. */
  predicate PureInits(decls: seq<Declarator>)
  {
    forall j | 0 <= j < |decls| :: decls[j].init.Some? ==> IsPure(decls[j].init.value)
  }

  /** The value a declarator binds: its initializer's, or null when it has none. */
  function InitValue(d: Declarator, frames: Frames): Outcome
    requires d.init.Some? ==> IsPure(d.init.value)
  {
    if d.init.None? then Ok(NullVal) else PureEval(d.init.value, frames)
  }

  /** The innermost frame after declaring `decls` in order: each initializer is evaluated
      with the names declared before it already bound, and a name the frame already holds
      raises; the first error is the result. */
  function PureDeclare(decls: seq<Declarator>, scope: map<string, Value>, outer: Frames): Result<map<string, Value>, RuntimeError>
    requires PureInits(decls)
  {
    if |decls| == 0 then Ok(scope)
    else
      var vars :- PureDeclare(decls[..|decls| - 1], scope, outer);
      var d := decls[|decls| - 1];
      var v :- InitValue(d, [vars] + outer);
      if d.name in vars then Err(AlreadyDeclared(d.name)) else Ok(vars[d.name := v])
  }

  /** Declaring one more declarator: its initializer sees the frame `vars` the earlier
      ones left; an error `r` of it, or the frame `vars'` it leaves, is what declaring the
      longer list gives. */
  lemma PureDeclareStep(decls: seq<Declarator>, i: nat, scope: map<string, Value>, outer: Frames,
                        vars: map<string, Value>, vars': map<string, Value>, r: Outcome)
    requires i < |decls| && PureInits(decls)
    requires PureDeclare(decls[..i], scope, outer) == Ok(vars)
    requires var name, v := decls[i].name, InitValue(decls[i], [vars] + outer);
      && (v.Err? ==> r == v)
      && (v.Ok? && name in vars ==> r == Err(AlreadyDeclared(name)))
      && (v.Ok? && name !in vars ==> r.Ok? && vars' == vars[name := v.value])
    ensures PureDeclare(decls[..i + 1], scope, outer) == if r.Err? then Err(r.error) else Ok(vars')
  {
    assert decls[..i + 1][..i] == decls[..i];
  }

  /** Once a declarator raises, the ones after it do not change the error. */
  lemma {:induction false} PureDeclarePrefixError(decls: seq<Declarator>, n: nat, scope: map<string, Value>,
                                                  outer: Frames)
    requires n <= |decls| && PureInits(decls)
    requires PureDeclare(decls[..n], scope, outer).Err?
    ensures PureDeclare(decls, scope, outer) == PureDeclare(decls[..n], scope, outer)
    decreases |decls| - n
  {
    if n < |decls| {
      var m := |decls| - 1;
      assert decls[..m][..n] == decls[..n];
      PureDeclarePrefixError(decls[..m], n, scope, outer);
      assert decls[..|decls|] == decls;
    } else {
      assert decls[..n] == decls;
    }
  }

  // ---- What the reference evaluator promises ----

  /** `1 + 2` is 3, and `7 / 2` is the float 3, whatever the scopes. */
  lemma Arithmetic(frames: Frames)
    ensures PureEval(Binary(NumericLiteral(1, false), "+", NumericLiteral(2, false)), frames) == Ok(NumberVal(3, false))
    ensures PureEval(Binary(NumericLiteral(7, false), "/", NumericLiteral(2, false)), frames) == Ok(NumberVal(3, true))
  {
    assert TruncDiv(7, 2) == 3;
  }

  /** The left operand raises first: when both operands raise, the left one's error is the
      result. */
  lemma LeftOperandFirst(l: Expr, op: string, r: Expr, frames: Frames)
    requires IsPure(l) && IsPure(r)
    requires PureEval(l, frames).Err?
    ensures PureEval(Binary(l, op, r), frames) == PureEval(l, frames)
    ensures PureEval(Logical(l, op, r), frames) == PureEval(l, frames)
  {
  }

  /** Both logical operands are always evaluated: a right operand that raises makes `or`
      raise even after a left operand that decides it, and likewise for `and`. */
  lemma LogicalEvaluatesBoth(frames: Frames, missing: string)
    requires LookupFrames(frames, missing).None?
    ensures var e := Logical(StringLiteral("True"), "or", Identifier(missing));
      IsPure(e) && PureEval(e, frames) == Err(Unresolved(missing))
    ensures var e := Logical(NullLiteral, "and", Identifier(missing));
      IsPure(e) && PureEval(e, frames) == Err(Unresolved(missing))
  {
  }

  /** A name evaluates to the binding of the innermost frame that holds it; a shorthand
      entry `{ key }` is the lookup of its key. */
  lemma NamesLookInnermost(frames: Frames, name: string, i: nat)
    requires i < |frames| && name in frames[i] && forall j | 0 <= j < i :: name !in frames[j]
    ensures PureEval(Identifier(name), frames) == Ok(frames[i][name])
    ensures PureEval(ObjectLit([Property(name)]), frames) == Ok(ObjectVal(map[name := frames[i][name]]))
  {
    InnermostHolder(frames, name, i);
    ShorthandEntry(frames, name, frames[i][name]);
  }

  lemma InnermostHolder(frames: Frames, name: string, i: nat)
    requires i < |frames| && name in frames[i] && forall j | 0 <= j < i :: name !in frames[j]
    ensures LookupFrames(frames, name) == Some(frames[i][name])
  {
    assert FirstHolder(frames, name).Some? by {
      assert name in frames[i];
    }
  }

  lemma ShorthandEntry(frames: Frames, name: string, v: Value)
    requires LookupFrames(frames, name) == Some(v)
    ensures PureEval(ObjectLit([Property(name)]), frames) == Ok(ObjectVal(map[name := v]))
  {
    ShorthandValues(frames, name, v);
    assert PropertyMap([Property(name)], [v]) == map[name := v];
  }

  lemma ShorthandValues(frames: Frames, name: string, v: Value)
    requires LookupFrames(frames, name) == Some(v)
    ensures PureProps([Property(name)], frames) == Ok([v])
  {
    var props := [Property(name)];
    assert props[..|props| - 1] == [];
    assert PureProps(props[..|props| - 1], frames) == Ok([]);
    assert PureProp(props[|props| - 1], frames) == Ok(v);
    assert [] + [v] == [v];
  }

  /** Member reads nest: `a.b.c` reads `c` from what `a.b` gives, and a non-object raises. */
  lemma MemberReadsNest(frames: Frames, a: string, b: string, c: string, inner: map<string, Value>, v: Value)
    requires LookupFrames(frames, a) == Some(ObjectVal(map[b := ObjectVal(inner)]))
    ensures var ab := Member(Identifier(a), Identifier(b), false);
      && PureEval(ab, frames) == Ok(ObjectVal(inner))
      && PureEval(Member(ab, Identifier(c), false), frames)
           == (if c in inner then Ok(inner[c]) else Err(MissingProperty(c)))
  {
  }

  /** An object that is neither a name nor a member access fails, but the property's name is
      read first: `"s"[0]` fails on the nameless property, `"s"[k]` on the object. */
  lemma MemberOfOtherObject(frames: Frames, obj: Expr, property: Expr, computed: bool)
    requires !obj.Identifier? && !obj.Member?
    ensures PureEval(Member(obj, property, computed), frames)
      == Err(if property.Identifier? then InvalidMemberObject else PropertyWithoutName)
    ensures PureEval(Member(StringLiteral("s"), NumericLiteral(0, false), true), frames) == Err(PropertyWithoutName)
  {
  }

  /** Evaluation only looks names up: frames that agree on the lookup of every name give
      every pure expression the same value. */
  lemma {:induction false} PureEvalSameLookups(e: Expr, f1: Frames, f2: Frames)
    requires IsPure(e)
    requires forall name :: LookupFrames(f1, name) == LookupFrames(f2, name)
    ensures PureEval(e, f1) == PureEval(e, f2)
    decreases e, 2
  {
    match e
    case Binary(l, _, r) =>
      PureEvalSameLookups(l, f1, f2);
      PureEvalSameLookups(r, f1, f2);
    case Logical(l, _, r) =>
      PureEvalSameLookups(l, f1, f2);
      PureEvalSameLookups(r, f1, f2);
    case Unary(_, x) =>
      PureEvalSameLookups(x, f1, f2);
    case ObjectLit(props) =>
      PurePropsSameLookups(props, f1, f2);
    case Member(obj, _, _) =>
      if obj.Member? {
        PureEvalSameLookups(obj, f1, f2);
      }
    case _ =>
  }

  lemma {:induction false} PurePropsSameLookups(props: seq<Property>, f1: Frames, f2: Frames)
    requires forall i | 0 <= i < |props| :: IsPureProperty(props[i])
    requires forall name :: LookupFrames(f1, name) == LookupFrames(f2, name)
    ensures PureProps(props, f1) == PureProps(props, f2)
    decreases props, 3
  {
    if |props| > 0 {
      var n := |props| - 1;
      PurePropsSameLookups(props[..n], f1, f2);
      var p := props[n];
      if p.value.Some? {
        PureEvalSameLookups(p.value.value, f1, f2);
      }
    }
  }
}
