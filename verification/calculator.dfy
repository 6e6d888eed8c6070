/**
 * The `Calculator` of app/calculator.py: look the operation up, execute it, build the record,
 * notify the observers, return the record; an `OperationError` on the way is raised again with
 * the prefix "Error during calculation: ".
 */
module Calculators {
  import opened Wrappers
  import opened Calculations
  import opened Operations
  import opened Observing

  const CalculationErrorPrefix := "Error during calculation: "

  /** The `except OperationError` clause: re-raise with the prefix; any other error passes unchanged. */
  function WrapError(e: Failure): (r: Failure)
    ensures e.OperationError? ==> r == OperationError(CalculationErrorPrefix + e.message)
    ensures e.DecimalSignal? ==> r == e
  {
    match e
    case OperationError(m) => OperationError(CalculationErrorPrefix + m)
    case DecimalSignal(_) => e
  }

  /** `_perform_operation`: lookup, execution and the record, or the wrapped error. */
  function PerformOperation(a: real, b: real, name: string, pow: PowerFn): Result<Calculation, Failure>
  {
    match GetOperation(name)
    case Failure(e) => Failure(WrapError(e))
    case Success(op) =>
      match Execute(op, a, b, pow)
      case Failure(e) => Failure(WrapError(e))
      case Success(v) => Success(MakeCalculation(a, b, name, v))
  }

  /** On success the record carries the operands, the name, and the result of the named operation. */
  lemma PerformOperationSuccess(a: real, b: real, name: string, pow: PowerFn)
    ensures PerformOperation(a, b, name, pow).Success? <==>
      name in Registry && Execute(Registry[name], a, b, pow).Success?
    ensures PerformOperation(a, b, name, pow).Success? ==>
      PerformOperation(a, b, name, pow) ==
        Success(Calculation(a, b, name, Execute(Registry[name], a, b, pow).value))
  {
  }

  /** Every OperationError raised comes out once prefixed; an unknown name names itself in the message. */
  lemma PerformOperationErrors(a: real, b: real, name: string, pow: PowerFn)
    ensures name !in Registry ==>
      PerformOperation(a, b, name, pow) ==
        Failure(OperationError(CalculationErrorPrefix + UnknownOperationPrefix + name))
    ensures name in Registry && Execute(Registry[name], a, b, pow).Failure? ==>
      PerformOperation(a, b, name, pow) == Failure(WrapError(Execute(Registry[name], a, b, pow).error))
    ensures PerformOperation(a, b, name, pow).Failure? && PerformOperation(a, b, name, pow).error.OperationError? ==>
      |CalculationErrorPrefix| <= |PerformOperation(a, b, name, pow).error.message| &&
      PerformOperation(a, b, name, pow).error.message[..|CalculationErrorPrefix|] == CalculationErrorPrefix
  {
    assert CalculationErrorPrefix + (UnknownOperationPrefix + name) == CalculationErrorPrefix + UnknownOperationPrefix + name;
  }

  /** `calculate(10, 5, "add")` is the record (10, 5, "add", 15); `divide` by zero fails with its message. */
  lemma ConcreteCalculations(pow: PowerFn)
    ensures PerformOperation(10.0, 5.0, "add", pow) == Success(Calculation(10.0, 5.0, "add", 15.0))
    ensures PerformOperation(10.0, 0.0, "divide", pow) ==
      Failure(OperationError(CalculationErrorPrefix + DivideByZeroMessage))
    ensures PerformOperation(-4.0, 2.0, "root", pow) ==
      Failure(OperationError(CalculationErrorPrefix + EvenRootMessage))
  {
    assert Registry["add"] == Add && Registry["divide"] == Divide && Registry["root"] == Root;
    RootGuard(-4.0, 2.0, pow);
    assert IsEvenInteger(2.0);
  }

  class Calculator {
    /** `Calculator` is a `Subject`; its observer list and their updates live here. */
    const subject: Subject

    constructor ()
      ensures fresh(subject) && subject.Valid()
      ensures subject.observers == [] && subject.received == []
    {
      subject := new Subject();
    }

    /** `calculate`: on success notify every observer with the record, then return it; on failure notify no one. */
    method Calculate(a: real, b: real, name: string, pow: PowerFn) returns (r: Result<Calculation, Failure>)
      modifies subject
      ensures r == PerformOperation(a, b, name, pow)
      ensures subject.observers == old(subject.observers)
      ensures r.Success? ==> subject.received == old(subject.received) + Broadcast(subject.observers, r.value)
      ensures r.Failure? ==> subject.received == old(subject.received)
    {
      r := PerformOperation(a, b, name, pow);
      if r.Success? {
        subject.Notify(r.value);
      }
    }
  }

  /**
   * tests/test_calculator.py:34-51: an attached observer gets the record of a calculation;
   * after `detach` it gets nothing from the next one. `firstEvents` and `secondEvents` are the
   * updates each calculation delivered.
   */
  method DetachedObserverMissesLaterCalculations(o: ObserverId, pow: PowerFn)
    returns (firstEvents: seq<Event>, secondEvents: seq<Event>, record: Calculation)
    ensures firstEvents == [Update(o, Calculation(20.0, 4.0, "divide", 5.0))]
    ensures forall e :: e in secondEvents ==> e.observer != o
    ensures record == Calculation(20.0, 4.0, "divide", 5.0)
  {
    var calculator := new Calculator();
    calculator.subject.Attach(o);
    var start := |calculator.subject.received|;
    var r := calculator.Calculate(20.0, 4.0, "divide", pow);
    assert Registry["divide"] == Divide && Registry["add"] == Add;
    record := r.value;
    firstEvents := calculator.subject.received[start..];
    var _ := calculator.subject.Detach(o);
    var middle := |calculator.subject.received|;
    var r2 := calculator.Calculate(10.0, 2.0, "add", pow);
    BroadcastDeliversOnce(calculator.subject.observers, r2.value, o);
    secondEvents := calculator.subject.received[middle..];
  }
}
