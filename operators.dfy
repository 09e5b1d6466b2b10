/** The value-level part of the evaluator: arithmetic, comparison, the binary-operator
    dispatch, unary and logical operators, and the truth value a condition is read as.
    Numbers are compared and computed on their integer parts. */
module Operators {
  import opened Wrappers
  import opened Runtime

  type Outcome = Result<Value, RuntimeError>

  const NumericOperators: set<string> := {"+", "-", "*", "/", "%", "^"}
  const ComparisonOperators: set<string> := {"==", "!=", "<", "<=", ">", ">="}

  function Abs(a: int): nat
  {
    if a < 0 then -a else a
  }

  /** The integer part of the true quotient `a / b`: the quotient rounded toward zero. */
  function TruncDiv(a: int, b: int): int
    requires b != 0
  {
    var q := Abs(a) / Abs(b);
    if (a < 0) == (b < 0) then q else -q
  }

  /** Division rounded toward floor, Python's `//`. */
  function FloorDiv(a: int, b: int): int
    requires b != 0
  {
    if b > 0 then a / b
    else if a % b == 0 then a / b
    else a / b - 1
  }

  /** The remainder Python's `%` gives: it takes the sign of the divisor. */
  function FloorMod(a: int, b: int): int
    requires b != 0
  {
    if b > 0 || a % b == 0 then a % b else a % b + b
  }

  /** `a` raised to a natural power. */
  function Pow(a: int, k: nat): (r: int)
    ensures a != 0 ==> r != 0
    decreases k
  {
    if k == 0 then 1 else a * Pow(a, k - 1)
  }

  /** Arithmetic on two numbers. A result is a float when an operand is, and true division
      and a negative power always give a float. A zero divisor, a zero modulus and zero
      raised to a negative power raise. */
  function NumericBinary(x: Value, y: Value, op: string): (r: Outcome)
    requires x.NumberVal? && y.NumberVal? && op in NumericOperators
    ensures r.Ok? ==> r.value.NumberVal?
    ensures r.Err? <==> (op in {"/", "%"} && y.n == 0) || (op == "^" && x.n == 0 && y.n < 0)
    ensures r.Err? ==> r.error == ZeroDivision(op)
  {
    var f := x.isFloat || y.isFloat;
    if op == "+" then Ok(NumberVal(x.n + y.n, f))
    else if op == "-" then Ok(NumberVal(x.n - y.n, f))
    else if op == "*" then Ok(NumberVal(x.n * y.n, f))
    else if op == "/" then
      if y.n == 0 then Err(ZeroDivision(op)) else Ok(NumberVal(TruncDiv(x.n, y.n), true))
    else if op == "%" then
      if y.n == 0 then Err(ZeroDivision(op)) else Ok(NumberVal(FloorMod(x.n, y.n), f))
    else if y.n >= 0 then Ok(NumberVal(Pow(x.n, y.n), f))
    else if x.n == 0 then Err(ZeroDivision(op))
    else Ok(NumberVal(TruncDiv(1, Pow(x.n, -y.n)), true))
  }

  /** Whether a value's `type` field reads "number": numbers and assignment results. */
  predicate NumberTyped(v: Value)
  {
    Tag(v) == Some("number")
  }

  /** Equality of the `value` fields of two number-typed values: a number's integer part,
      or the value an assignment result wraps. */
  predicate SamePayload(x: Value, y: Value)
    requires NumberTyped(x) && NumberTyped(y)
  {
    if x.NumberVal? && y.NumberVal? then x.n == y.n
    else if x.Boxed? && y.Boxed? then x.inner == y.inner
    else false
  }

  /** The six comparisons, each giving a boolean; ordering an assignment result raises,
      and any other operator raises. */
  function Compare(x: Value, y: Value, op: string): (r: Outcome)
    requires NumberTyped(x) && NumberTyped(y)
  {
    if op == "==" then Ok(BooleanVal(SamePayload(x, y)))
    else if op == "!=" then Ok(BooleanVal(!SamePayload(x, y)))
    else if op in {"<", "<=", ">", ">="} then
      if x.NumberVal? && y.NumberVal? then
        Ok(BooleanVal(
          if op == "<" then x.n < y.n
          else if op == "<=" then x.n <= y.n
          else if op == ">" then x.n > y.n
          else x.n >= y.n))
      else Err(OperandType(op))
    else Err(InvalidOperator(op))
  }

  /** A binary expression on two evaluated operands. Two number-typed operands do arithmetic
      for the six arithmetic operators and comparison otherwise; an operand that is not
      number-typed gives null. The left operand's type is read first, so a non-number left
      operand gives null before the right one is inspected; reading the type of an absent
      value raises. */
  function BinaryOp(lhs: Value, op: string, rhs: Value): (r: Outcome)
    ensures r.Ok? ==> r.value.NullVal? || r.value.NumberVal? || r.value.BooleanVal?
  {
    if lhs.NoValue? then Err(OperandType(op))
    else if !NumberTyped(lhs) then Ok(NullVal)
    else if rhs.NoValue? then Err(OperandType(op))
    else if !NumberTyped(rhs) then Ok(NullVal)
    else if op in NumericOperators then
      if lhs.NumberVal? && rhs.NumberVal? then NumericBinary(lhs, rhs, op) else Err(OperandType(op))
    else Compare(lhs, rhs, op)
  }

  /** Unary `+` and `-` on a number, `not` and `!` on a boolean. */
  function UnaryOp(op: string, v: Value): (r: Outcome)
    ensures r.Ok? ==> (r.value.NumberVal? && v.NumberVal?) || (r.value.BooleanVal? && v.BooleanVal?)
  {
    if op == "+" then
      if v.NumberVal? then Ok(NumberVal(v.n, v.isFloat)) else Err(OperandType(op))
    else if op == "-" then
      if v.NumberVal? then Ok(NumberVal(-v.n, v.isFloat)) else Err(OperandType(op))
    else if op in {"not", "!"} then
      if v.BooleanVal? then Ok(BooleanVal(!v.b)) else Err(OperandType(op))
    else Err(InvalidOperator(op))
  }

  /** Whether a value has a `value` field; objects, functions, natives and the absent value
      have none. */
  predicate HasValueField(v: Value)
  {
    v.NullVal? || v.BooleanVal? || v.NumberVal? || v.StringVal? || v.Boxed?
  }

  /** `and` gives the left operand when both operands are equal and false otherwise; `or` gives
      true when the left operand's value is the text "True" and the right operand otherwise. */
  function LogicalOp(lhs: Value, op: string, rhs: Value): (r: Outcome)
    ensures r.Ok? ==> r.value == lhs || r.value == rhs || r.value.BooleanVal?
  {
    if op in {"and", "&&"} then
      if lhs == rhs then Ok(lhs) else Ok(BooleanVal(false))
    else if op in {"or", "||"} then
      if !HasValueField(lhs) then Err(OperandType(op))
      else if lhs == StringVal("True") then Ok(BooleanVal(true))
      else Ok(rhs)
    else Err(InvalidOperator(op))
  }

  /** The truth value of a condition's `value` field: null is false, numbers are true unless
      zero, texts unless empty; an assignment result is true unless it wraps the absent value. */
  function Truthy(v: Value): Result<bool, RuntimeError>
  {
    match v
    case NullVal => Ok(false)
    case BooleanVal(b) => Ok(b)
    case NumberVal(n, _) => Ok(n != 0)
    case StringVal(s) => Ok(s != "")
    case Boxed(inner) => Ok(!inner.NoValue?)
    case _ => Err(NoTruthValue)
  }

  // ---- Properties ----

  /** Truncating division brackets the dividend: the rounded quotient times the divisor does
      not exceed it in magnitude, the next quotient does, and the sign is the quotient's. */
  lemma TruncDivBrackets(a: int, b: int)
    requires b != 0
    ensures Abs(TruncDiv(a, b) * b) <= Abs(a) < (Abs(TruncDiv(a, b)) + 1) * Abs(b)
    ensures TruncDiv(a, b) * b == 0 || ((TruncDiv(a, b) * b < 0) == (a < 0))
  {
    var q := Abs(a) / Abs(b);
    QuotientBrackets(Abs(a), Abs(b));
    assert Abs(TruncDiv(a, b)) == q;
    MulAbs(TruncDiv(a, b), b);
  }

  /** Euclidean division of naturals brackets the dividend. */
  lemma QuotientBrackets(a: nat, b: nat)
    requires b > 0
    ensures (a / b) * b <= a < (a / b + 1) * b
  {
  }

  lemma MulAbs(x: int, y: int)
    ensures Abs(x * y) == Abs(x) * Abs(y)
  {
    if x < 0 && y < 0 {
      assert x * y == (-x) * (-y);
    } else if x < 0 {
      assert -(x * y) == (-x) * y;
    } else if y < 0 {
      assert -(x * y) == x * (-y);
    }
  }

  /** Python's `%` and `//` satisfy the division identity, and the remainder lies between
      zero and the divisor, on the divisor's side. */
  lemma FloorModIdentity(a: int, b: int)
    requires b != 0
    ensures b * FloorDiv(a, b) + FloorMod(a, b) == a
    ensures b > 0 ==> 0 <= FloorMod(a, b) < b
    ensures b < 0 ==> b < FloorMod(a, b) <= 0
  {
    if b < 0 && a % b != 0 {
      assert b * (a / b - 1) + (a % b + b) == b * (a / b) + a % b;
    }
  }

  /** Adding then subtracting the same number gives back the first integer part, and the
      result is a float exactly when either operand is. */
  lemma AddThenSubtract(x: Value, y: Value)
    requires x.NumberVal? && y.NumberVal?
    ensures var s := NumericBinary(x, y, "+").value;
      && s.isFloat == (x.isFloat || y.isFloat)
      && NumericBinary(s, y, "-") == Ok(NumberVal(x.n, x.isFloat || y.isFloat))
  {
  }

  /** The float flag of an arithmetic result: true division and a negative power always give
      a float, every other operator gives one exactly when an operand is one. */
  lemma NumericResultType(x: Value, y: Value, op: string)
    requires x.NumberVal? && y.NumberVal? && op in NumericOperators
    requires NumericBinary(x, y, op).Ok?
    ensures NumericBinary(x, y, op).value.isFloat <==>
      op == "/" || (op == "^" && y.n < 0) || x.isFloat || y.isFloat
  {
  }

  /** Division gives the quotient rounded toward zero. */
  lemma DivisionTruncates(x: Value, y: Value)
    requires x.NumberVal? && y.NumberVal? && y.n != 0
    ensures var q := NumericBinary(x, y, "/").value.n;
      Abs(q * y.n) <= Abs(x.n) < (Abs(q) + 1) * Abs(y.n)
  {
    TruncDivBrackets(x.n, y.n);
  }

  /** A negative power of a base other than zero, one and minus one has integer part zero. */
  lemma NegativePowerIsFraction(x: Value, y: Value)
    requires x.NumberVal? && y.NumberVal? && y.n < 0 && Abs(x.n) > 1
    ensures NumericBinary(x, y, "^") == Ok(NumberVal(0, true))
  {
    var p := Pow(x.n, -y.n);
    PowGrows(x.n, -y.n);
    assert Abs(1) / Abs(p) == 0;
  }

  /** A power of a base other than zero, one and minus one exceeds one in magnitude. */
  lemma {:induction false} PowGrows(a: int, k: nat)
    requires Abs(a) > 1 && k > 0
    ensures Abs(Pow(a, k)) > 1
    decreases k
  {
    MulAbs(a, Pow(a, k - 1));
    if k > 1 {
      PowGrows(a, k - 1);
    } else {
      assert Pow(a, 0) == 1;
    }
    assert Abs(Pow(a, k)) == Abs(a) * Abs(Pow(a, k - 1));
  }

  /** Comparisons of two numbers always give a boolean for the six comparison operators and
      raise for any other operator. */
  lemma ComparisonIsBoolean(x: Value, y: Value, op: string)
    requires x.NumberVal? && y.NumberVal?
    ensures Compare(x, y, op).Ok? <==> op in ComparisonOperators
    ensures Compare(x, y, op).Ok? ==> Compare(x, y, op).value.BooleanVal?
    ensures !(op in ComparisonOperators) ==> Compare(x, y, op) == Err(InvalidOperator(op))
  {
  }

  /** Each comparison is the negation of its complement, and `<` is `>` with the operands
      swapped. */
  lemma ComparisonComplements(x: Value, y: Value)
    requires x.NumberVal? && y.NumberVal?
    ensures Compare(x, y, "<").value.b == !Compare(x, y, ">=").value.b
    ensures Compare(x, y, "<=").value.b == !Compare(x, y, ">").value.b
    ensures Compare(x, y, "==").value.b == !Compare(x, y, "!=").value.b
    ensures Compare(x, y, "<") == Compare(y, x, ">")
    ensures Compare(x, y, "==").value.b <==> x.n == y.n
  {
  }

  /** A binary expression gives null exactly when one operand (the left one first) is not
      number-typed; two numbers give a number for the arithmetic operators and a boolean
      for the comparisons. */
  lemma BinaryOpDispatch(lhs: Value, op: string, rhs: Value)
    ensures BinaryOp(lhs, op, rhs) == Ok(NullVal) <==>
      !lhs.NoValue? && (!NumberTyped(lhs) || (!rhs.NoValue? && !NumberTyped(rhs)))
    ensures lhs.NumberVal? && rhs.NumberVal? && op in NumericOperators ==>
      BinaryOp(lhs, op, rhs) == NumericBinary(lhs, rhs, op)
    ensures lhs.NumberVal? && rhs.NumberVal? && op !in NumericOperators ==>
      BinaryOp(lhs, op, rhs) == Compare(lhs, rhs, op)
      && (BinaryOp(lhs, op, rhs).Ok? <==> op in ComparisonOperators)
  {
    if lhs.NumberVal? && rhs.NumberVal? && op !in NumericOperators {
      ComparisonIsBoolean(lhs, rhs, op);
    }
  }

  /** Dividing by zero raises whatever the dividend. */
  lemma DivisionByZeroRaises(x: Value, y: Value)
    requires x.NumberVal? && y.NumberVal? && y.n == 0
    ensures BinaryOp(x, "/", y) == Err(ZeroDivision("/"))
    ensures BinaryOp(x, "%", y) == Err(ZeroDivision("%"))
  {
  }

  /** The unary operators succeed exactly on the operand kind they require. */
  lemma UnaryRequirements(op: string, v: Value)
    ensures UnaryOp(op, v).Ok? <==>
      (op in {"+", "-"} && v.NumberVal?) || (op in {"not", "!"} && v.BooleanVal?)
    ensures !(op in {"+", "-", "not", "!"}) ==> UnaryOp(op, v) == Err(InvalidOperator(op))
  {
  }

  /** Negating twice and logical negation twice give back the operand. */
  lemma UnaryInvolutions(v: Value, w: Value)
    requires v.NumberVal? && w.BooleanVal?
    ensures UnaryOp("-", UnaryOp("-", v).value) == Ok(v)
    ensures UnaryOp("not", UnaryOp("!", w).value) == Ok(w)
    ensures Truthy(UnaryOp("not", w).value) == Ok(!Truthy(w).value)
  {
  }

  /** `and` of equal operands is that operand; of unequal ones, false. */
  lemma AndSemantics(lhs: Value, rhs: Value, op: string)
    requires op in {"and", "&&"}
    ensures LogicalOp(lhs, op, lhs) == Ok(lhs)
    ensures lhs != rhs ==> LogicalOp(lhs, op, rhs) == Ok(BooleanVal(false))
    ensures LogicalOp(BooleanVal(true), op, BooleanVal(false)) == Ok(BooleanVal(false))
  {
  }

  /** `or` gives true exactly when the left operand is the text "True" or it passes the right
      operand through; a left boolean true is passed over like any other value. */
  lemma OrSemantics(lhs: Value, rhs: Value, op: string)
    requires op in {"or", "||"} && HasValueField(lhs)
    ensures lhs == StringVal("True") ==> LogicalOp(lhs, op, rhs) == Ok(BooleanVal(true))
    ensures lhs != StringVal("True") ==> LogicalOp(lhs, op, rhs) == Ok(rhs)
    ensures LogicalOp(BooleanVal(true), op, rhs) == Ok(rhs)
  {
  }

  /** The logical operators never raise except for an `or` whose left operand has no value
      field, or an operator that is neither. */
  lemma LogicalErrors(lhs: Value, op: string, rhs: Value)
    ensures LogicalOp(lhs, op, rhs).Err? <==>
      (op in {"or", "||"} && !HasValueField(lhs)) || !(op in {"and", "&&", "or", "||"})
  {
  }

  /** Exactly the values with a `value` field have a truth value, and a comparison result
      is read as the boolean it holds. */
  lemma TruthyDefined(v: Value, x: Value, y: Value, op: string)
    requires x.NumberVal? && y.NumberVal? && op in ComparisonOperators
    ensures Truthy(v).Ok? <==> HasValueField(v)
    ensures Truthy(Compare(x, y, op).value) == Ok(Compare(x, y, op).value.b)
  {
  }
}
