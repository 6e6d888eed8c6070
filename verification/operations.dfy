/**
 * The operation registry of app/operations.py: ten named binary operations over `Decimal`
 * operands, each guarded by its own domain checks, and the factory that looks them up by name.
 */
module Operations {
  import opened Wrappers

  /** The errors an operation can raise. */
  datatype Failure =
      /** The application's own `OperationError`, with its message. */
    | OperationError(message: string)
      /** A `decimal` signal such as `DivisionByZero` or `InvalidOperation`, raised by the
          decimal arithmetic itself; it is not an `OperationError`. */
    | DecimalSignal(condition: string)

  /** `Decimal.__pow__`, which the model leaves uninterpreted: a value, or the name of the signal it raises. */
  type PowerFn = (real, real) -> Result<real, string>

  datatype Operation =
    | Add | Subtract | Multiply | Divide | Power | Root
    | Modulus | IntDivide | Percent | AbsDiff

  const DivideByZeroMessage := "Cannot divide by zero."
  const EvenRootMessage := "Cannot calculate an even root of a negative number."
  const ModulusByZeroMessage := "Cannot perform modulus by zero."
  const IntDivideByZeroMessage := "Cannot perform integer division by zero."
  const PercentByZeroMessage := "Cannot calculate percentage with a zero denominator."
  const UnknownOperationPrefix := "Unknown operation: "

  // ---------------------------------------------------------------------------------------
  // Decimal integer division and remainder
  // ---------------------------------------------------------------------------------------

  /** `x` truncated toward zero. */
  function Truncate(x: real): (q: int)
    ensures x >= 0.0 ==> q as real <= x < q as real + 1.0
    ensures x < 0.0 ==> q as real - 1.0 < x <= q as real
  {
    if x >= 0.0 then x.Floor else -((-x).Floor)
  }

  /** `Decimal.__floordiv__`: the exact quotient truncated toward zero (not floored, unlike Python's `int`). */
  function DecimalIntDiv(a: real, b: real): real
    requires b != 0.0
  {
    Truncate(a / b) as real
  }

  /** `Decimal.__mod__`: the remainder that goes with `DecimalIntDiv`; it takes the sign of `a`. */
  function DecimalRem(a: real, b: real): real
    requires b != 0.0
  {
    a - b * DecimalIntDiv(a, b)
  }

  /** The integer quotient and remainder satisfy a = b * q + r with |r| < |b|, r of a's sign. */
  lemma DivRemIdentity(a: real, b: real)
    requires b != 0.0
    ensures a == b * DecimalIntDiv(a, b) + DecimalRem(a, b)
    ensures DecimalIntDiv(a, b) == DecimalIntDiv(a, b).Floor as real
    ensures Abs(DecimalRem(a, b)) < Abs(b)
    ensures DecimalRem(a, b) == 0.0 || (DecimalRem(a, b) < 0.0 <==> a < 0.0)
  {
    var f := a / b - DecimalIntDiv(a, b);
    RemIsScaledFraction(a, b);
    assert -1.0 < f < 1.0 && (f == 0.0 || (f < 0.0 <==> a / b < 0.0));
    RemBound(b, f, DecimalRem(a, b));
    if f != 0.0 {
      assert b * (a / b) == a;
      ProductSign(b, f);
      ProductSign(b, a / b);
    }
  }

  lemma RemBound(b: real, f: real, r: real)
    requires b != 0.0 && -1.0 < f < 1.0 && r == b * f
    ensures Abs(r) < Abs(b)
  {
    if b > 0.0 {
      MulBound(b, f);
      assert -b < r < b;
    } else {
      MulBound(-b, -f);
      assert (-b) * (-f) == r;
      assert b < r < -b;
    }
  }

  /** The remainder is b times the fractional part that truncation drops. */
  lemma RemIsScaledFraction(a: real, b: real)
    requires b != 0.0
    ensures DecimalRem(a, b) == b * (a / b - DecimalIntDiv(a, b))
  {
    var q := DecimalIntDiv(a, b);
    assert b * (a / b) == a;
    assert b * (a / b - q) == b * (a / b) - b * q;
  }

  lemma MulBound(p: real, f: real)
    requires p > 0.0 && -1.0 < f < 1.0
    ensures -p < p * f < p
    ensures -p < (-p) * (-f) < p
  {
    if f >= 0.0 {
      assert p * f < p * 1.0;
    } else {
      assert p * f > p * -1.0;
    }
  }

  lemma ProductSign(b: real, f: real)
    requires b != 0.0 && f != 0.0
    ensures b * f < 0.0 <==> (b < 0.0 <==> f > 0.0)
  {
  }

  function Abs(x: real): (r: real)
    ensures r >= 0.0 && (r == x || r == -x)
  {
    if x < 0.0 then -x else x
  }

  /** `b` is an even whole number. */
  predicate IsEvenInteger(b: real) {
    b == b.Floor as real && b.Floor % 2 == 0
  }

  /** The root guard `b % 2 == 0` holds exactly for the even whole numbers, negative ones included. */
  lemma RemTwoZeroIffEven(b: real)
    ensures DecimalRem(b, 2.0) == 0.0 <==> IsEvenInteger(b)
  {
    var q := Truncate(b / 2.0);
    assert DecimalRem(b, 2.0) == b - 2.0 * q as real;
    if DecimalRem(b, 2.0) == 0.0 {
      assert b == (2 * q) as real;
      assert b.Floor == 2 * q;
    }
    if IsEvenInteger(b) {
      var k := b.Floor / 2;
      assert b == (2 * k) as real;
      assert b / 2.0 == k as real;
      assert (k as real).Floor == k;
      assert q == k;
    }
  }

  // ---------------------------------------------------------------------------------------
  // The ten operations
  // ---------------------------------------------------------------------------------------

  /** `1 / b` as computed by `Decimal`: zero divisor raises the `DivisionByZero` signal. */
  function Reciprocal(b: real): (r: Result<real, Failure>)
    ensures r.Success? <==> b != 0.0
    ensures r.Success? ==> r.value * b == 1.0
    ensures r.Failure? ==> r.error == DecimalSignal("DivisionByZero")
  {
    if b == 0.0 then Failure(DecimalSignal("DivisionByZero")) else Success(1.0 / b)
  }

  /** `x ** y`, with a decimal signal passed on as a failure. */
  function RaisePower(pow: PowerFn, x: real, y: real): Result<real, Failure>
  {
    match pow(x, y)
    case Success(v) => Success(v)
    case Failure(s) => Failure(DecimalSignal(s))
  }

  /** `RootOperation.execute`: the even-root guard first, then a sign-preserving root. */
  function ExecuteRoot(a: real, b: real, pow: PowerFn): Result<real, Failure>
  {
    if a < 0.0 && DecimalRem(b, 2.0) == 0.0 then
      Failure(OperationError(EvenRootMessage))
    else if a < 0.0 then
      match Reciprocal(b)
      case Failure(e) => Failure(e)
      case Success(e) =>
        match RaisePower(pow, -a, e)
        case Success(v) => Success(-v)
        case Failure(f) => Failure(f)
    else
      match Reciprocal(b)
      case Failure(e) => Failure(e)
      case Success(e) => RaisePower(pow, a, e)
  }

  /** `Operation.execute(a, b)` for each of the ten operations. */
  function Execute(op: Operation, a: real, b: real, pow: PowerFn): Result<real, Failure>
  {
    match op
    case Add => Success(a + b)
    case Subtract => Success(a - b)
    case Multiply => Success(a * b)
    case Divide => if b == 0.0 then Failure(OperationError(DivideByZeroMessage)) else Success(a / b)
    case Power => RaisePower(pow, a, b)
    case Root => ExecuteRoot(a, b, pow)
    case Modulus => if b == 0.0 then Failure(OperationError(ModulusByZeroMessage)) else Success(DecimalRem(a, b))
    case IntDivide => if b == 0.0 then Failure(OperationError(IntDivideByZeroMessage)) else Success(DecimalIntDiv(a, b))
    case Percent => if b == 0.0 then Failure(OperationError(PercentByZeroMessage)) else Success((a / b) * 100.0)
    case AbsDiff => Success(Abs(a - b))
  }

  /** add, subtract and multiply compute the exact sum, difference and product and never fail. */
  lemma RingOperationsTotal(a: real, b: real, pow: PowerFn)
    ensures Execute(Add, a, b, pow) == Success(a + b)
    ensures Execute(Subtract, a, b, pow) == Success(a - b)
    ensures Execute(Multiply, a, b, pow) == Success(a * b)
  {
  }

  /** divide, modulus, int_divide and percent fail, each with its own message, exactly when b is zero. */
  lemma ZeroDivisorGuards(a: real, b: real, pow: PowerFn)
    ensures Execute(Divide, a, b, pow).Failure? <==> b == 0.0
    ensures Execute(Modulus, a, b, pow).Failure? <==> b == 0.0
    ensures Execute(IntDivide, a, b, pow).Failure? <==> b == 0.0
    ensures Execute(Percent, a, b, pow).Failure? <==> b == 0.0
    ensures b == 0.0 ==>
      Execute(Divide, a, b, pow) == Failure(OperationError(DivideByZeroMessage)) &&
      Execute(Modulus, a, b, pow) == Failure(OperationError(ModulusByZeroMessage)) &&
      Execute(IntDivide, a, b, pow) == Failure(OperationError(IntDivideByZeroMessage)) &&
      Execute(Percent, a, b, pow) == Failure(OperationError(PercentByZeroMessage))
  {
  }

  /** For a non-zero divisor, divide is the exact quotient and percent is that quotient times 100. */
  lemma DivideAndPercent(a: real, b: real, pow: PowerFn)
    requires b != 0.0
    ensures Execute(Divide, a, b, pow).Success? && Execute(Divide, a, b, pow).value * b == a
    ensures Execute(Percent, a, b, pow).Success? && Execute(Percent, a, b, pow).value * b == 100.0 * a
  {
  }

  /** int_divide and modulus agree with each other: a == b * (a // b) + a % b, quotient truncated. */
  lemma IntDivideModulusAgree(a: real, b: real, pow: PowerFn)
    requires b != 0.0
    ensures Execute(IntDivide, a, b, pow).Success? && Execute(Modulus, a, b, pow).Success?
    ensures a == b * Execute(IntDivide, a, b, pow).value + Execute(Modulus, a, b, pow).value
    ensures Execute(IntDivide, a, b, pow).value == Truncate(a / b) as real
    ensures Abs(Execute(Modulus, a, b, pow).value) < Abs(b)
    ensures Execute(Modulus, a, b, pow).value == 0.0 || (Execute(Modulus, a, b, pow).value < 0.0 <==> a < 0.0)
  {
    DivRemIdentity(a, b);
  }

  /** abs_diff never fails, is never negative, and does not depend on the order of its operands. */
  lemma AbsDiffProperties(a: real, b: real, pow: PowerFn)
    ensures Execute(AbsDiff, a, b, pow).Success?
    ensures Execute(AbsDiff, a, b, pow).value >= 0.0
    ensures Execute(AbsDiff, a, b, pow) == Execute(AbsDiff, b, a, pow)
    ensures Execute(AbsDiff, a, b, pow).value == a - b || Execute(AbsDiff, a, b, pow).value == b - a
  {
  }

  /** root fails with the even-root message exactly when a < 0 and b is an even whole number. */
  lemma RootGuard(a: real, b: real, pow: PowerFn)
    ensures Execute(Root, a, b, pow) == Failure(OperationError(EvenRootMessage)) <==>
            a < 0.0 && IsEvenInteger(b)
    ensures Execute(Root, a, b, pow).Failure? && Execute(Root, a, b, pow).error.OperationError? ==>
            a < 0.0 && IsEvenInteger(b)
  {
    RemTwoZeroIffEven(b);
  }

  /** For a negative base with an admissible b, root negates the root of -a. */
  lemma RootOfNegative(a: real, b: real, pow: PowerFn)
    requires a < 0.0 && !IsEvenInteger(b)
    ensures b != 0.0
    ensures Execute(Root, a, b, pow) ==
      match pow(-a, 1.0 / b)
      case Success(v) => Success(-v)
      case Failure(s) => Failure(DecimalSignal(s))
  {
    RemTwoZeroIffEven(b);
    assert IsEvenInteger(0.0);
  }

  /** For a non-negative base, root is `a ** (1 / b)`, and a zero b raises `DivisionByZero`, not an OperationError. */
  lemma RootOfNonNegative(a: real, b: real, pow: PowerFn)
    requires a >= 0.0
    ensures b == 0.0 ==> Execute(Root, a, b, pow) == Failure(DecimalSignal("DivisionByZero"))
    ensures b != 0.0 ==> Execute(Root, a, b, pow) == RaisePower(pow, a, 1.0 / b)
  {
  }

  /** power only fails when `Decimal` itself raises a signal; it never raises an OperationError. */
  lemma PowerNeverOperationError(a: real, b: real, pow: PowerFn)
    ensures Execute(Power, a, b, pow).Failure? <==> pow(a, b).Failure?
    ensures Execute(Power, a, b, pow).Failure? ==> Execute(Power, a, b, pow).error == DecimalSignal(pow(a, b).error)
    ensures Execute(Power, a, b, pow).Success? ==> Execute(Power, a, b, pow).value == pow(a, b).value
  {
  }

  // ---------------------------------------------------------------------------------------
  // OperationFactory
  // ---------------------------------------------------------------------------------------

  /** `OperationFactory._operations`. */
  const Registry: map<string, Operation> := map[
    "add" := Add,
    "subtract" := Subtract,
    "multiply" := Multiply,
    "divide" := Divide,
    "power" := Power,
    "root" := Root,
    "modulus" := Modulus,
    "int_divide" := IntDivide,
    "percent" := Percent,
    "abs_diff" := AbsDiff
  ]

  /** The name under which each operation is registered. */
  function NameOf(op: Operation): string
  {
    match op
    case Add => "add"
    case Subtract => "subtract"
    case Multiply => "multiply"
    case Divide => "divide"
    case Power => "power"
    case Root => "root"
    case Modulus => "modulus"
    case IntDivide => "int_divide"
    case Percent => "percent"
    case AbsDiff => "abs_diff"
  }

  /** `OperationFactory.get_operation`. */
  function GetOperation(name: string): (r: Result<Operation, Failure>)
    ensures r.Success? <==> name in Registry
    ensures r.Failure? ==> r.error == OperationError(UnknownOperationPrefix + name)
  {
    if name in Registry then Success(Registry[name]) else Failure(OperationError(UnknownOperationPrefix + name))
  }

  /** Every operation is found under its own name and under no other. */
  lemma {:induction false} GetOperationNameOf(name: string, op: Operation)
    ensures GetOperation(NameOf(op)) == Success(op)
    ensures GetOperation(name) == Success(op) ==> name == NameOf(op)
  {
    match op
    case Add =>
    case Subtract =>
    case Multiply =>
    case Divide =>
    case Power =>
    case Root =>
    case Modulus =>
    case IntDivide =>
    case Percent =>
    case AbsDiff =>
  }

  /** The registry holds exactly the ten names. */
  lemma RegistryNames(name: string)
    ensures name in Registry <==> name in {"add", "subtract", "multiply", "divide", "power",
                                          "root", "modulus", "int_divide", "percent", "abs_diff"}
  {
  }
}
