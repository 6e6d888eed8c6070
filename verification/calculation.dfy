/** The Calculation record of app/calculation.py: an immutable value with structural equality. */
module Calculations {

  /** Operand and result values are Python `Decimal`s, modelled as exact reals. */
  datatype Calculation = Calculation(a: real, b: real, operation: string, result: real)

  /** What `Calculation.__init__` builds: the four fields exactly as given. */
  function MakeCalculation(a: real, b: real, operation: string, result: real): (c: Calculation)
    ensures c.a == a && c.b == b && c.operation == operation && c.result == result
  {
    Calculation(a, b, operation, result)
  }

  /**
   * The right operand of `==`: a Calculation, or an object of another class together with the
   * answer its own (reflected) `__eq__` gives when handed a Calculation.
   */
  datatype PyObject =
    | CalculationObject(record: Calculation)
    | OtherObject(className: string, reflected: EqAnswer)

  /** The value `__eq__` returns: a boolean, or `NotImplemented` for unrelated types. */
  datatype EqAnswer = Answer(equal: bool) | NotImplemented

  /** `Calculation.__eq__`: field-by-field comparison, `NotImplemented` for a non-Calculation. */
  function Eq(self: Calculation, other: PyObject): (r: EqAnswer)
    ensures r == NotImplemented <==> other.OtherObject?
    ensures r == Answer(true) <==> other == CalculationObject(self)
  {
    match other
    case OtherObject(_, _) => NotImplemented
    case CalculationObject(o) =>
      Answer(self.a == o.a && self.b == o.b && self.operation == o.operation && self.result == o.result)
  }

  /**
   * The outcome of the `==` operator: when `__eq__` answers `NotImplemented`, Python uses the
   * other object's reflected `__eq__`; when that is `NotImplemented` too, it falls back to
   * identity, and an object of another class is never identical to a Calculation.
   */
  function OperatorEq(self: Calculation, other: PyObject): bool
  {
    match Eq(self, other)
    case Answer(e) => e
    case NotImplemented =>
      match other.reflected
      case Answer(e) => e
      case NotImplemented => false
  }

  /**
   * A Calculation equals exactly the equal records, plus those foreign objects whose own `__eq__`
   * accepts it; a foreign object that also answers `NotImplemented` is never equal.
   */
  lemma OperatorEqIsStructural(self: Calculation, other: PyObject)
    ensures other.CalculationObject? ==> (OperatorEq(self, other) <==> other.record == self)
    ensures other.OtherObject? ==> (OperatorEq(self, other) <==> other.reflected == Answer(true))
    ensures other.OtherObject? && other.reflected == NotImplemented ==> !OperatorEq(self, other)
  {
  }

  lemma EqReflexiveSymmetric(x: Calculation, y: Calculation)
    ensures Eq(x, CalculationObject(x)) == Answer(true)
    ensures Eq(x, CalculationObject(y)) == Eq(y, CalculationObject(x))
    ensures Eq(x, CalculationObject(y)) == Answer(x == y)
  {
  }

  /**
   * `Calculation.__repr__`: `Calculation(<a>, <b>, '<operation>') = <result>`, where `text`
   * stands for `Decimal.__str__`, which is not modelled.
   */
  function Repr(c: Calculation, text: real -> string): (r: string)
    ensures |r| >= |"Calculation("| + |"') = "| + |text(c.result)|
    ensures r[..|"Calculation("|] == "Calculation("
    ensures r[|r| - |text(c.result)|..] == text(c.result)
  {
    "Calculation(" + text(c.a) + ", " + text(c.b) + ", '" + c.operation + "') = " + text(c.result)
  }
}
