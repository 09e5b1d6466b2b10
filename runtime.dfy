/** Runtime values and the parent-linked scope chain the evaluator runs in. */
module Runtime {
  import opened Wrappers
  import opened Ast

  /** The three built-in functions of the global `con` object; their console effects are not modelled. */
  datatype Native = PrintOut | PrintlnOut | InputIn

  /** Runtime values. Numbers keep their integer part and whether they are floats.
      `Boxed` is the number record that assignment wraps around the assigned value, and
      `NoValue` is the absence of a value that statements and the print functions produce. */
  datatype Value =
    | NullVal
    | BooleanVal(b: bool := true)
    | NumberVal(n: int, isFloat: bool)
    | StringVal(s: string)
    | ObjectVal(properties: map<string, Value>)
    | FunctionVal(name: string, params: seq<string>, env: Environment, body: Stmt)
    | NativeFn(native: Native)
    | Boxed(inner: Value)
    | NoValue

  /** The `type` field each value record carries; the absent value has none. */
  function Tag(v: Value): Option<string>
  {
    match v
    case NullVal => Some("null")
    case BooleanVal(_) => Some("boolean")
    case NumberVal(_, _) => Some("number")
    case StringVal(_) => Some("string")
    case ObjectVal(_) => Some("object")
    case FunctionVal(_, _, _, _) => Some("function")
    case NativeFn(_) => Some("native_fn")
    case Boxed(_) => Some("number")
    case NoValue => None
  }

  /** Decimal text of a natural number. */
  function NatText(n: nat): (r: string)
    ensures |r| > 0
    decreases n
  {
    var digit := ['0' + (n % 10) as char];
    if n < 10 then digit else NatText(n / 10) + digit
  }

  /** The text of a number as the value's string form shows it: an optional minus sign and
      the digits, with a fractional part when the number is a float (only ".0" is kept here,
      since the model keeps the integer part of floats). */
  function NumberText(n: int, isFloat: bool): string
  {
    (if n < 0 then "-" + NatText(-n) else NatText(n)) + (if isFloat then ".0" else "")
  }

  /** The `number_type` field of a number: "float" when its text contains a dot, else "int". */
  function NumberType(n: int, isFloat: bool): string
  {
    if '.' in NumberText(n, isFloat) then "float" else "int"
  }

  lemma {:induction false} NatTextHasNoDot(n: nat)
    ensures '.' !in NatText(n)
    decreases n
  {
    if n >= 10 {
      NatTextHasNoDot(n / 10);
    }
  }

  /** A number is typed "float" exactly when it was built from a float. */
  lemma NumberTypeIsFloatFlag(n: int, isFloat: bool)
    ensures NumberType(n, isFloat) == "float" <==> isFloat
    ensures NumberType(n, isFloat) == "int" <==> !isFloat
  {
    NatTextHasNoDot(if n < 0 then -n else n);
    if isFloat {
      assert NumberText(n, isFloat)[|NumberText(n, isFloat)| - 2] == '.';
    }
  }

  /** The tags of the value records, and the default of a boolean. */
  lemma ValueTags(m: map<string, Value>, name: string, params: seq<string>, env: Environment,
                  body: Stmt, s: string, n: int, f: bool, k: Native)
    ensures Tag(NullVal) == Some("null") && Tag(BooleanVal()) == Some("boolean")
    ensures BooleanVal().b
    ensures Tag(NumberVal(n, f)) == Some("number") && Tag(StringVal(s)) == Some("string")
    ensures Tag(ObjectVal(m)) == Some("object") && ObjectVal(m).properties == m
    ensures var fv := FunctionVal(name, params, env, body);
      Tag(fv) == Some("function") && fv.name == name && fv.params == params && fv.env == env && fv.body == body
    ensures Tag(NativeFn(k)) == Some("native_fn")
  {
  }

  /** Every way evaluation can fail; each one is a raised exception in the interpreter. */
  datatype RuntimeError =
    | AlreadyDeclared(name: string)
    | Unresolved(name: string)
    | AssignToConstant(name: string)
    | ZeroDivision(operator: string)
    | InvalidOperator(operator: string)
    | OperandType(operator: string)
    | NoTruthValue
    | InvalidAssignmentTarget
    | InvalidMemberObject
    | PropertyWithoutName
    | NotAnObject
    | MissingProperty(key: string)
    | NotCallable
    | MissingArgument(index: nat)
    | OutOfFuel

  /** The index of the first frame, innermost first, that binds `name`. */
  function FirstHolder(frames: seq<map<string, Value>>, name: string): (r: Option<nat>)
    ensures r.Some? ==>
      && r.value < |frames| && name in frames[r.value]
      && forall j :: 0 <= j < r.value ==> name !in frames[j]
    ensures r.None? <==> forall j :: 0 <= j < |frames| ==> name !in frames[j]
  {
    if |frames| == 0 then None
    else if name in frames[0] then Some(0)
    else match FirstHolder(frames[1..], name)
      case Some(i) => Some(i + 1)
      case None => None
  }

  /** The value `name` has when looked up through the frames. */
  function LookupFrames(frames: seq<map<string, Value>>, name: string): Option<Value>
  {
    match FirstHolder(frames, name)
    case Some(i) => Some(frames[i][name])
    case None => None
  }

  /** Updating `name` in the frame that holds it first makes lookups of `name` see the new
      value and leaves every other name's lookup as it was. */
  lemma AssignmentIsLocal(frames: seq<map<string, Value>>, i: nat, name: string, value: Value, other: string)
    requires FirstHolder(frames, name) == Some(i)
    ensures var after := frames[i := frames[i][name := value]];
      && LookupFrames(after, name) == Some(value)
      && (other != name ==> LookupFrames(after, other) == LookupFrames(frames, other))
  {
    var after := frames[i := frames[i][name := value]];
    assert forall j :: 0 <= j < |frames| ==> after[j].Keys == frames[j].Keys;
    assert FirstHolder(after, other) == FirstHolder(frames, other) by {
      FirstHolderSameKeys(frames, after, other);
    }
    FirstHolderSameKeys(frames, after, name);
  }

  /** Frames with the same key sets agree on where a name is first held. */
  lemma FirstHolderSameKeys(a: seq<map<string, Value>>, b: seq<map<string, Value>>, name: string)
    requires |a| == |b| && forall j :: 0 <= j < |a| ==> a[j].Keys == b[j].Keys
    ensures FirstHolder(a, name) == FirstHolder(b, name)
  {
    var ra, rb := FirstHolder(a, name), FirstHolder(b, name);
    if ra.Some? {
      assert name in b[ra.value];
    }
    if rb.Some? {
      assert name in a[rb.value];
    }
  }

  /** Declaring `name` in the innermost frame shadows every outer binding of it and leaves
      every other name's lookup as it was. */
  lemma DeclarationShadows(frames: seq<map<string, Value>>, name: string, value: Value, other: string)
    requires |frames| > 0
    ensures var after := [frames[0][name := value]] + frames[1..];
      && LookupFrames(after, name) == Some(value)
      && (other != name ==> LookupFrames(after, other) == LookupFrames(frames, other))
  {
    var after := [frames[0][name := value]] + frames[1..];
    if other != name {
      if other in frames[0] {
        assert FirstHolder(after, other) == Some(0);
      } else {
        assert after[1..] == frames[1..];
      }
    }
  }

  /** One scope. `parent` and `depth` never change; `depth` only serves to show that the
      chain of parents is finite. */
  class Environment {
    const parent: Environment?
    ghost const depth: nat
    var variables: map<string, Value>
    var constants: seq<string>

    /** Parents sit strictly higher than their children, so the chain ends. */
    ghost predicate Valid()
      decreases depth
    {
      parent != null ==> parent.depth < depth && parent.Valid()
    }

    /** This scope followed by its ancestors, innermost first. */
    ghost function Chain(): (c: seq<Environment>)
      requires Valid()
      decreases depth
      ensures |c| > 0 && c[0] == this
      ensures parent == null ==> c == [this]
      ensures parent != null ==> c[1..] == parent.Chain()
      ensures forall i :: 0 <= i < |c| ==> c[i].Valid()
      ensures forall i, j :: 0 <= i < j < |c| ==> c[i].depth > c[j].depth
    {
      [this] + (if parent == null then [] else parent.Chain())
    }

    /** The variable maps along the chain, innermost first. */
    ghost function Frames(): (f: seq<map<string, Value>>)
      requires Valid()
      reads Chain()
      decreases depth
      ensures |f| == |Chain()| && forall i :: 0 <= i < |f| ==> f[i] == Chain()[i].variables
    {
      if parent == null then [variables]
      else
        assert forall i :: 1 <= i < |Chain()| ==> Chain()[i] == parent.Chain()[i - 1];
        [variables] + parent.Frames()
    }

    /** The variable maps of the ancestors, innermost first. */
    ghost function Outer(): seq<map<string, Value>>
      requires Valid()
      reads if parent == null then [] else parent.Chain()
    {
      if parent == null then [] else parent.Frames()
    }

    constructor(parentEnv: Environment?)
      requires parentEnv != null ==> parentEnv.Valid()
      ensures Valid() && parent == parentEnv
      ensures variables == map[] && constants == []
    {
      parent := parentEnv;
      depth := if parentEnv == null then 0 else parentEnv.depth + 1;
      variables := map[];
      constants := [];
    }

    /** The nearest scope up the chain that binds `name`; an error when even the root lacks it. */
    function Resolve(name: string): (r: Result<Environment, RuntimeError>)
      requires Valid()
      reads Chain()
      decreases depth
      ensures r.Ok? <==> FirstHolder(Frames(), name).Some?
      ensures r.Ok? ==> r.value == Chain()[FirstHolder(Frames(), name).value]
      ensures r.Ok? ==> r.value in Chain() && name in r.value.variables
      ensures r.Err? ==> r.error == Unresolved(name)
    {
      if name in variables then Ok(this)
      else if parent == null then Err(Unresolved(name))
      else
        assert Frames()[1..] == parent.Frames();
        parent.Resolve(name)
    }

    /** The value bound to `name` in the scope that resolves it. */
    function LookupVar(name: string): (r: Result<Value, RuntimeError>)
      requires Valid()
      reads Chain()
      ensures r.Ok? <==> LookupFrames(Frames(), name).Some?
      ensures r.Ok? ==> r.value == LookupFrames(Frames(), name).value
      ensures r.Err? ==> r.error == Unresolved(name)
    {
      var e :- Resolve(name);
      Ok(e.variables[name])
    }

    /** The scopes an assignment to `name` may change: the one that resolves it, if any. */
    ghost function Owner(name: string): set<Environment>
      requires Valid()
      reads Chain()
    {
      match Resolve(name)
      case Ok(e) => {e}
      case Err(_) => {}
    }

    /** Declares `name` in this scope only, whatever the parents hold. */
    method DeclareVar(name: string, value: Value, constant: bool) returns (r: Result<Value, RuntimeError>)
      requires Valid()
      modifies this
      ensures name in old(variables) ==> r == Err(AlreadyDeclared(name)) && unchanged(this)
      ensures name !in old(variables) ==>
        && r == Ok(value)
        && variables == old(variables)[name := value]
        && constants == old(constants) + (if constant then [name] else [])
    {
      if name in variables {
        return Err(AlreadyDeclared(name));
      }
      variables := variables[name := value];
      if constant {
        constants := constants + [name];
      }
      r := Ok(value);
    }

    /** Rebinds `name` in the scope that resolves it, unless that scope holds it as a constant.
        Only that scope's map changes, at `name` only, and the result is the assigned value
        wrapped in a number record. */
    method AssignVar(name: string, value: Value) returns (r: Result<Value, RuntimeError>)
      requires Valid()
      modifies Owner(name)`variables
      ensures old(Resolve(name)).Err? ==> r == Err(Unresolved(name))
      ensures old(Resolve(name)).Ok? && name in old(Resolve(name).value.constants) ==>
        r == Err(AssignToConstant(name))
      ensures old(Resolve(name)).Ok? && name !in old(Resolve(name).value.constants) ==>
        && r == Ok(Boxed(value))
        && var i := FirstHolder(old(Frames()), name).value;
           Frames() == old(Frames())[i := old(Frames())[i][name := value]]
      ensures r.Ok? ==> LookupVar(name) == Ok(value)
      ensures old(Resolve(name)).Ok? ==>
        var owner := old(Resolve(name)).value;
        owner.variables == if r.Ok? then old(owner.variables)[name := value] else old(owner.variables)
    {
      var res := Resolve(name);
      if res.Err? {
        return Err(Unresolved(name));
      }
      var env := res.value;
      if name in env.constants {
        return Err(AssignToConstant(name));
      }
      ghost var before := Frames();
      ghost var i := FirstHolder(before, name).value;
      env.variables := env.variables[name := value];
      forall j | 0 <= j < |Frames()|
        ensures Frames()[j] == before[i := before[i][name := value]][j]
      {
        if j != i {
          assert Chain()[j] != env by {
            assert Chain()[j].depth != Chain()[i].depth;
          }
        }
      }
      AssignmentIsLocal(before, i, name, value, name);
      r := Ok(Boxed(value));
    }
  }

  /** Looking up a name held in this scope gives this scope's binding, whatever the parents hold. */
  lemma LocalShadowsOuter(env: Environment, name: string)
    requires env.Valid() && name in env.variables
    ensures env.LookupVar(name) == Ok(env.variables[name])
  {
  }

  /** Looking up a name this scope lacks asks the parent, and fails at the root. */
  lemma LookupFallsThrough(env: Environment, name: string)
    requires env.Valid() && name !in env.variables
    ensures env.parent == null ==> env.LookupVar(name) == Err(Unresolved(name))
    ensures env.parent != null ==> env.LookupVar(name) == env.parent.LookupVar(name)
  {
    if env.parent != null {
      assert env.Frames()[1..] == env.parent.Frames();
      assert env.Frames() == [env.variables] + env.parent.Frames();
    }
  }

  /** The `con` object: `out.print`, `out.println` and `in`. */
  const Console: Value :=
    ObjectVal(map["out" := ObjectVal(map["print" := NativeFn(PrintOut), "println" := NativeFn(PrintlnOut)]),
                  "in" := NativeFn(InputIn)])

  /** The root scope: constant booleans `true` and `false` and the constant `con` object. */
  method CreateGlobalEnv() returns (env: Environment)
    ensures fresh(env) && env.Valid() && env.parent == null
    ensures env.variables == map["true" := BooleanVal(true), "false" := BooleanVal(false), "con" := Console]
    ensures env.constants == ["true", "false", "con"]
  {
    env := new Environment(null);
    var _ := env.DeclareVar("true", BooleanVal(true), true);
    var _ := env.DeclareVar("false", BooleanVal(false), true);
    var _ := env.DeclareVar("con", Console, true);
  }
}
