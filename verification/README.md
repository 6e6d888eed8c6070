# Advanced calculator: history caretaker, observers and operation registry in Dafny

This project models the core of a command-line calculator written in Python. The core has five parts:

- **Operation registry** (`app/operations.py`): ten named binary operations over `Decimal`, each with its own domain guards. `OperationFactory.get_operation` looks them up by name.
- **Calculation** (`app/calculation.py`): an immutable record `(a, b, operation, result)` with structural `__eq__` and a `__repr__`.
- **Memento** (`app/calculator_memento.py`): deep-copies the calculation list when it is created, and hands that list out by reference from `get_state`.
- **History caretaker** (`app/history.py`): the live `calculations` list, an undo stack of mementos that starts with a memento of the empty list, and a redo stack. It supports `add_calculation`, `undo` and `redo`.
- **Subject / Calculator** (`app/calculator.py`): an ordered observer list with `attach`, `detach` and `notify`. `calculate` looks up and runs the operation, builds the record, notifies the observers and returns the record. An `OperationError` is raised again with the prefix `"Error during calculation: "`.

Modules, one per part:

| file | module | form |
|---|---|---|
| `wrappers.dfy` | `Wrappers` | the `Result` datatype that stands for raised exceptions |
| `calculation.dfy` | `Calculations` | datatype and functions |
| `operations.dfy` | `Operations` | functions over `real` and lemmas; `Decimal`'s truncating `//` and `%` written out |
| `memento.dfy` | `Mementos` | classes `CalcList` (a Python list object) and `Memento` |
| `timeline.dfy` | `Timeline` | the caretaker on values, where every memento owns its list; this is the intended behaviour |
| `history.dfy` | `Histories` | class `History`, the caretaker as written, over heap lists that can be shared |
| `subject.dfy` | `Observing` | class `Subject`, plus functions on the observer list |
| `calculator.dfy` | `Calculators` | `PerformOperation` and class `Calculator` |

In the model, observers are opaque identities. The effect of `observer.update(c)` is an `Update(observer, c)` event appended to the subject's `received` trace.

`Decimal` values are `real`. `power` and the roots are computed by `Decimal.__pow__`. The model takes that operation as a parameter `pow` of type `(real, real) -> Result<real, string>`: it yields a value, or the name of the decimal signal it raises.

Python inheritance (`Calculator(Subject)`) becomes composition: a `Calculator` owns a `Subject` named `subject`.

In four places the code behaves differently from what a reader might expect, and the model follows the code:

- `detach` of an observer that is not attached raises `ValueError`, because `list.remove` does. It is not a no-op.
- `int_divide` and `modulus` use `Decimal` semantics. The quotient is truncated toward zero, not floored, and the remainder takes the sign of the dividend.
- Snapshots are not independent of the live list after a successful undo or redo, although the comment at `app/calculator_memento.py:7-8` promises a completely independent clone. See Findings.
- `root` with `b = 0` and `a >= 0` raises `decimal.DivisionByZero` while computing `1 / b`. That is not an `OperationError`, so `calculate` passes it on unwrapped. The model has it as `DecimalSignal("DivisionByZero")`.

## Model

| member | source | states |
|---|---|---|
| `Calculations.MakeCalculation` | app/calculation.py:6-10 | the record keeps a, b, operation and result exactly as given |
| `Calculations.Eq` | app/calculation.py:16-24 | `__eq__` answers NotImplemented exactly for a non-Calculation, and true exactly when the other object is an equal record |
| `Calculations.OperatorEq` | app/calculation.py:16-24 | Python's `==` on a Calculation: the `__eq__` answer, else the other object's reflected answer, else identity (false); its behaviour is stated by `Calculations.OperatorEqIsStructural` |
| `Calculations.OperatorEqIsStructural` | app/calculation.py:18-24 | against a Calculation, `==` holds exactly for an equal record; against another class, `__eq__` answers NotImplemented, so `==` is that object's reflected answer, and false when that is NotImplemented too |
| `Calculations.EqReflexiveSymmetric` | app/calculation.py:21-24 | equality is reflexive, is symmetric, and agrees with equality of all four fields |
| `Calculations.Repr` | app/calculation.py:12-14 | the text starts with `Calculation(` and ends with the rendering of the result |
| `Operations.DecimalIntDiv` | app/operations.py:62 | `Decimal`'s `a // b`, the quotient truncated toward zero; stated by `Operations.DivRemIdentity` and `Operations.IntDivideModulusAgree` |
| `Operations.DecimalRem` | app/operations.py:56 | `Decimal`'s `a % b`, the remainder matching `DecimalIntDiv`; stated by `Operations.DivRemIdentity` and `Operations.IntDivideModulusAgree` |
| `Operations.DivRemIdentity` | app/operations.py:52-62 | a == b*(a//b) + a%b; the quotient is a whole number; abs(a%b) < abs(b); a non-zero remainder has the sign of a |
| `Operations.RemTwoZeroIffEven` | app/operations.py:39 | the guard `b % 2 == 0` holds exactly when b is an even whole number, negative ones included |
| `Operations.Reciprocal` | app/operations.py:45-48 | `1 / b` fails with DivisionByZero exactly when b is 0; otherwise it is the inverse of b |
| `Operations.Execute` | app/operations.py:14-72 | `execute` of each of the ten operations; stated by `Operations.RingOperationsTotal`, `Operations.ZeroDivisorGuards`, `Operations.DivideAndPercent`, `Operations.IntDivideModulusAgree`, `Operations.AbsDiffProperties`, `Operations.PowerNeverOperationError` and the root lemmas |
| `Operations.ExecuteRoot` | app/operations.py:36-48 | `RootOperation.execute`: the even-root guard first, then the sign-preserving root; stated by `Operations.RootGuard`, `Operations.RootOfNegative` and `Operations.RootOfNonNegative` |
| `Operations.RingOperationsTotal` | app/operations.py:14-24 | add, subtract and multiply never fail and give a+b, a-b, a*b |
| `Operations.ZeroDivisorGuards` | app/operations.py:26-68 | divide, modulus, int_divide and percent fail exactly when b == 0, each with its own OperationError message |
| `Operations.DivideAndPercent` | app/operations.py:26-68 | for b != 0, divide gives q with q*b == a, and percent gives p with p*b == 100*a |
| `Operations.IntDivideModulusAgree` | app/operations.py:52-62 | for b != 0, int_divide and modulus succeed; the quotient is a/b truncated toward zero; a == b*q + r with abs(r) < abs(b) and r of a's sign |
| `Operations.AbsDiffProperties` | app/operations.py:70-72 | abs_diff never fails, is never negative, is symmetric, and equals a-b or b-a |
| `Operations.RootGuard` | app/operations.py:36-40 | root raises the even-root OperationError exactly when a < 0 and b is an even whole number; it raises no other OperationError |
| `Operations.RootOfNegative` | app/operations.py:42-45 | for a < 0 and b not an even whole number, b != 0 and root is the negation of `(-a) ** (1/b)` |
| `Operations.RootOfNonNegative` | app/operations.py:47-48 | for a >= 0, root is `a ** (1/b)`, and b == 0 raises DivisionByZero rather than an OperationError |
| `Operations.PowerNeverOperationError` | app/operations.py:32-34 | power fails only when `Decimal` signals, and never with an OperationError |
| `Operations.Registry` | app/operations.py:78-90 | the factory's name-to-operation table; stated by `Operations.RegistryNames` and `Operations.GetOperationNameOf` |
| `Operations.GetOperation` | app/operations.py:92-101 | lookup succeeds exactly for registered names; otherwise it fails with "Unknown operation: " + name |
| `Operations.GetOperationNameOf` | app/operations.py:78-90 | each operation is found under its own name and under no other name |
| `Operations.RegistryNames` | app/operations.py:78-90 | the registry holds exactly the ten names |
| `Mementos.CalcList.Append` | app/history.py:15 | `list.append` grows the same list object in place: the contents gain the calculation at the end |
| `Mementos.Memento.constructor` | app/calculator_memento.py:6-9 | the stored list is a new object with the same contents as the given list |
| `Mementos.Memento.GetState` | app/calculator_memento.py:11-13 | returns the stored list object itself, not a copy |
| `Mementos.SnapshotIsIndependent` | app/calculator_memento.py:6-9 | appending to the source list after the snapshot leaves the memento's contents unchanged |
| `Mementos.StateIsShared` | app/calculator_memento.py:11-13 | two `get_state` calls return the same list, and appending to it changes the memento |
| `Timeline.Init` | app/history.py:7-11 | a new history has no calculations, one memento of the empty list and an empty redo stack |
| `Timeline.Add` | app/history.py:13-17 | `add_calculation` with owned snapshots; stated by `Timeline.AddSpec`, `Timeline.AddThenUndo` and `Timeline.AddThenRedo` |
| `Timeline.Undo` | app/history.py:27-39 | `undo` with owned snapshots; stated by `Timeline.UndoSpec`, `Timeline.UndoThenRedo` and `Timeline.RedoThenUndo` |
| `Timeline.Redo` | app/history.py:41-55 | `redo` with owned snapshots; stated by `Timeline.RedoSpec`, `Timeline.UndoThenRedo` and `Timeline.RedoThenUndo` |
| `Timeline.AddSpec` | app/history.py:13-17 | add appends at the end, clears redo, and pushes exactly one memento equal to the new list, keeping the invariant |
| `Timeline.UndoSpec` | app/history.py:27-39 | undo with at most one memento changes nothing; otherwise the top moves to redo and the new top is restored; the invariant is kept |
| `Timeline.RedoSpec` | app/history.py:41-55 | redo on an empty redo stack changes nothing; otherwise the redo top goes back on the undo stack and is restored |
| `Timeline.AddThenUndo` | app/history.py:13-38 | undo after add restores the list and the undo stack; the redo stack then holds the undone state |
| `Timeline.UndoThenRedo` | app/history.py:27-55 | redo after a successful undo restores the whole history, so the list and both stack sizes are as before |
| `Timeline.RedoThenUndo` | app/history.py:27-55 | undo after a successful redo restores the whole history |
| `Timeline.AddThenRedo` | app/history.py:16 | after an add there is nothing to redo, so redo changes nothing |
| `Timeline.RunPreservesValid` | app/history.py:10-55 | after any sequence of add, undo and redo, the undo stack is non-empty, its top equals the live list, and its bottom is the start-up memento (with owned snapshots; as written, that memento's contents can change, see `Histories.UndoAfterAddAfterUndo`) |
| `Timeline.AddsThenUndosReturnToEmpty` | app/history.py:13-38 | with owned snapshots, add, undo, add, undo from start-up gives the empty list |
| `Histories.History.constructor` | app/history.py:7-11 | a fresh live list, and one fresh memento of it; agrees with `Timeline.Init` |
| `Histories.History.CreateMemento` | app/history.py:19-21 | a fresh memento whose fresh list has the live list's contents |
| `Histories.History.RestoreFromMemento` | app/history.py:23-25 | the live list becomes the memento's own list object |
| `Histories.History.AddCalculation` | app/history.py:13-17 | appends in place to the same list object, clears redo and pushes one fresh memento; a memento sharing the live list grows too; with no sharing it agrees with `Timeline.Add` |
| `Histories.History.Undo` | app/history.py:27-39 | the exact new stacks; the live list is the new top memento's list; agrees with `Timeline.Undo` |
| `Histories.History.Redo` | app/history.py:41-55 | the exact new stacks; the live list is the restored memento's list; agrees with `Timeline.Redo` |
| `Histories.History.ValidView` | app/history.py:10 | the class invariant is the timeline invariant on the values it holds |
| `Histories.History.SharedAfterRestore` | app/history.py:25 | after a restore, the live list is shared with a memento |
| `Histories.UndoAfterAddAfterUndo` | app/history.py:13-38 | as written, add, undo, add, undo from start-up shows the second calculation, not the empty list |
| `Observing.Broadcast` | app/calculator.py:19-21 | notify makes one update per attached observer, in list order, each with the same calculation |
| `Observing.BroadcastDeliversOnce` | app/calculator.py:12-21 | with no duplicates attached, each attached observer is updated exactly once and nobody else is updated |
| `Observing.RemoveFirst` | app/calculator.py:16-17 | `list.remove`: one element fewer, the first occurrence dropped; stated by `Observing.RemoveFirstSpec` |
| `Observing.RemoveFirstSpec` | app/calculator.py:16-17 | removal drops exactly the observer, keeps the others in order, and keeps the list duplicate-free |
| `Observing.DetachedObserverNotUpdated` | app/calculator.py:16-21 | a detached observer receives no update from a later notify |
| `Observing.Subject.constructor` | app/calculator.py:9-10 | no observers and no updates yet |
| `Observing.Subject.Attach` | app/calculator.py:12-14 | appends the observer unless it is present; the order is kept and there are no duplicates |
| `Observing.Subject.Detach` | app/calculator.py:16-17 | removes the observer, keeping the order of the rest; an absent observer gives ValueError and no change |
| `Observing.Subject.Notify` | app/calculator.py:19-21 | the trace grows by exactly one update per observer, in list order |
| `Calculators.WrapError` | app/calculator.py:40-42 | an OperationError is re-raised with the prefix; any other error passes unchanged |
| `Calculators.PerformOperation` | app/calculator.py:34-42 | `_perform_operation`: lookup, execution, the record, or the wrapped error; stated by `Calculators.PerformOperationSuccess` and `Calculators.PerformOperationErrors` |
| `Calculators.PerformOperationSuccess` | app/calculator.py:34-39 | succeeds exactly when the name is registered and the operation succeeds; the result is `Calculation(a, b, name, op.execute(a, b))` |
| `Calculators.PerformOperationErrors` | app/calculator.py:36-42 | an unknown name gives "Error during calculation: Unknown operation: " + name; execution errors are wrapped; every OperationError carries the prefix |
| `Calculators.ConcreteCalculations` | app/calculator.py:28-42 | add 10 5 gives 15; divide 10 0 and root -4 2 fail with their prefixed messages |
| `Calculators.Calculator.constructor` | app/calculator.py:25-26 | a calculator starts with no observers |
| `Calculators.Calculator.Calculate` | app/calculator.py:28-32 | returns the outcome of `_perform_operation`; on success every observer gets that same record, in order; on failure nobody is notified |
| `Calculators.DetachedObserverMissesLaterCalculations` | tests/test_calculator.py:34-51 | the first calculation delivers exactly one update, to the attached observer, carrying (20, 4, divide, 5), and returns that record; after detach, none of the next calculation's updates goes to that observer |

## Findings

| source | as written | input that shows it | evidently intended | confidence | as-written member | corrected member |
|---|---|---|---|---|---|---|
| app/history.py:25 with app/calculator_memento.py:13 | `restore_from_memento` makes the live list the memento's own list; the next `add_calculation` appends to that memento too | from start-up: add c1, undo, add c2, undo; the list shows `[c2]`, and the start-up memento now holds `[c2]` | each memento keeps its snapshot, so the last undo shows `[]` and undo after add restores the earlier list | high (not executed) | `Histories.UndoAfterAddAfterUndo` | `Timeline.AddThenUndo` |

`Timeline` is the caretaker with owned snapshots. `History.View()` maps the class onto it. `Histories.History.AddCalculation` agrees with `Timeline.Add` only while the live list is `Detached()`, meaning it is not a memento's list. That is true from start-up until the first successful undo or redo; an undo with only one memento restores nothing and leaves the live list detached. `Undo` and `Redo` always agree with their `Timeline` counterparts.

## Left out

- `main.py`: the command loop, with input parsing, `getattr` dispatch and printing. It also calls `save_history` and `load_history`, which `app/history.py` does not define, so CSV save and load have no source to model.
- `app/saver.py` and `app/logger.py`: the auto-save and logging observers write files through pandas and `logging`. Here an observer's update is only an event on the trace.
- `app/calculator_config.py` (environment lookup) and `app/commands.py` (a decorator filling a global command table) are glue.
- `app/exceptions.py`: the exception classes are the `Failure` datatype.
- An exception raised by an observer's `update` would stop `notify` part-way. Observers are opaque here, so updates cannot fail.
- The console messages of `undo` and `redo` ("Nothing to undo." and the others) are returned as the booleans `undone` and `redone`.
- `Operations.Execute`: `Decimal` works to 28 significant digits. Every arithmetic operation (`+`, `-`, `*`, `/`, `percent`, `abs_diff`) is exact on reals here, with no rounding and no `Overflow`, and `//`, `%` and `b % 2` never raise `InvalidOperation` for quotients too large for the context. NaN and infinities are not modelled.
- `Operations.Execute`: the numeric values of `power` and `root` come from the `pow` parameter. Only the guards, the order of the checks and the sign handling are modelled.
- `Calculations.Repr`: decimal-to-text is the parameter `text`, a function of the numeric value. A `Decimal` also carries its exponent, so `5.0` and `5.00` are equal records that print differently; the model cannot tell them apart. The contract states only the fixed prefix and the rendered result at the end, not the full layout.
- `Calculations.EqReflexiveSymmetric`: operands are reals, so there is no NaN. `Decimal('nan')` parses as an operand, NaN is never equal to itself, and a record holding one is not equal to itself under `__eq__`; the lemma's reflexivity does not cover that record.
- `Operations.RingOperationsTotal`: `+`, `-` and `*` are exact here. In `Decimal` they round to 28 significant digits and raise `decimal.Overflow` past the largest exponent (for example multiply 9e999999 by 10), so the lemma's "never fails" holds only for results inside the context's range.
- `Operations.AbsDiffProperties`: the same rounding and `Overflow` apply to `a - b`; the lemma's "never fails" holds only inside the context's range.
- `Operations.DivideAndPercent`: `q * b == a` is exact here; in `Decimal` the quotient is rounded to 28 digits and can overflow.
- `Observing.Subject.Notify`: an observer whose `update` detaches an observer while `notify` is looping makes Python's list iteration skip the next observer. Observers cannot call back into the subject here, so that re-entrant case is not modelled.
- `Mementos.Memento.constructor`: `copy.deepcopy` also copies each `Calculation`. Records are immutable values here, so copying the list is the whole copy.
