/**
 * The caretaker of app/history.py as its comments describe it: every memento holds its own
 * copy of the calculation list, so the history is a value made of three sequences. This is
 * the intended behaviour; the class in history.dfy is the code as written and agrees with it
 * until a calculation is added after a successful undo or redo.
 */
module Timeline {
  import opened Calculations

  /** The live calculation list and the states held by the undo and redo stacks (top last). */
  datatype History = History(calculations: seq<Calculation>, undo: seq<seq<Calculation>>, redo: seq<seq<Calculation>>)

  /** The undo stack is never empty and its top holds the live list. */
  predicate Valid(h: History) {
    |h.undo| >= 1 && h.undo[|h.undo| - 1] == h.calculations
  }

  /** `History.__init__`: no calculations, one memento of the empty list, no redo. */
  function Init(): (h: History)
    ensures Valid(h) && h.calculations == [] && |h.undo| == 1 && h.redo == []
  {
    History([], [[]], [])
  }

  /** `add_calculation`: append, clear the redo stack, push a memento of the new list. */
  function Add(h: History, c: Calculation): History
  {
    var calcs := h.calculations + [c];
    History(calcs, h.undo + [calcs], [])
  }

  /** `undo`: with at least two mementos, move the top to the redo stack and restore the new top. */
  function Undo(h: History): History
  {
    if |h.undo| <= 1 then h
    else
      var n := |h.undo|;
      History(h.undo[n - 2], h.undo[..n - 1], h.redo + [h.undo[n - 1]])
  }

  /** `redo`: with a non-empty redo stack, move its top back onto the undo stack and restore it. */
  function Redo(h: History): History
  {
    if |h.redo| == 0 then h
    else
      var m := |h.redo|;
      History(h.redo[m - 1], h.undo + [h.redo[m - 1]], h.redo[..m - 1])
  }

  lemma AddSpec(h: History, c: Calculation)
    requires Valid(h)
    ensures Valid(Add(h, c))
    ensures Add(h, c).calculations == h.calculations + [c]
    ensures Add(h, c).redo == []
    ensures Add(h, c).undo[..|h.undo|] == h.undo && |Add(h, c).undo| == |h.undo| + 1
  {
  }

  lemma UndoSpec(h: History)
    requires Valid(h)
    ensures Valid(Undo(h))
    ensures |h.undo| <= 1 ==> Undo(h) == h
    ensures |h.undo| >= 2 ==>
      Undo(h).undo == h.undo[..|h.undo| - 1] &&
      Undo(h).redo == h.redo + [h.calculations] &&
      Undo(h).calculations == h.undo[|h.undo| - 2]
  {
  }

  lemma RedoSpec(h: History)
    requires Valid(h)
    ensures Valid(Redo(h))
    ensures h.redo == [] ==> Redo(h) == h
    ensures h.redo != [] ==>
      Redo(h).undo == h.undo + [h.redo[|h.redo| - 1]] &&
      Redo(h).redo == h.redo[..|h.redo| - 1] &&
      Redo(h).calculations == h.redo[|h.redo| - 1]
  {
  }

  /** Undoing an addition gives back the list and the undo stack as they were. */
  lemma AddThenUndo(h: History, c: Calculation)
    requires Valid(h)
    ensures Undo(Add(h, c)) == History(h.calculations, h.undo, [h.calculations + [c]])
  {
    var n := |h.undo|;
    assert (h.undo + [h.calculations + [c]])[..n] == h.undo;
  }

  /** Redoing what was undone restores the list and the sizes of both stacks, and in fact everything. */
  lemma UndoThenRedo(h: History)
    requires Valid(h) && |h.undo| >= 2
    ensures Redo(Undo(h)) == h
  {
    var n := |h.undo|;
    assert h.undo[..n - 1] + [h.undo[n - 1]] == h.undo;
    assert (h.redo + [h.undo[n - 1]])[..|h.redo|] == h.redo;
  }

  /** Undoing what was redone restores everything. */
  lemma RedoThenUndo(h: History)
    requires Valid(h) && |h.redo| >= 1
    ensures Undo(Redo(h)) == h
  {
    var m := |h.redo|;
    assert h.redo[..m - 1] + [h.redo[m - 1]] == h.redo;
    assert (h.undo + [h.redo[m - 1]])[..|h.undo|] == h.undo;
  }

  /** After an addition there is nothing to redo. */
  lemma AddThenRedo(h: History, c: Calculation)
    ensures Redo(Add(h, c)) == Add(h, c)
  {
  }

  /** One call on the caretaker. */
  datatype Command = AddCalculation(c: Calculation) | UndoCommand | RedoCommand

  function Step(h: History, cmd: Command): History
  {
    match cmd
    case AddCalculation(c) => Add(h, c)
    case UndoCommand => Undo(h)
    case RedoCommand => Redo(h)
  }

  /** The history after a sequence of calls, first call first. */
  function Run(h: History, cmds: seq<Command>): History
    decreases |cmds|
  {
    if cmds == [] then h else Run(Step(h, cmds[0]), cmds[1..])
  }

  /**
   * Whatever calls are made, the undo stack keeps at least one memento, its top holds the live
   * list, and the bottom memento is still the one taken at start-up.
   */
  lemma {:induction false} RunPreservesValid(h: History, cmds: seq<Command>)
    requires Valid(h)
    ensures Valid(Run(h, cmds))
    ensures Run(h, cmds).undo[0] == h.undo[0]
    decreases |cmds|
  {
    if cmds != [] {
      var h' := Step(h, cmds[0]);
      match cmds[0] {
        case AddCalculation(c) => AddSpec(h, c);
        case UndoCommand => UndoSpec(h);
        case RedoCommand => RedoSpec(h);
      }
      assert h'.undo[0] == h.undo[0];
      RunPreservesValid(h', cmds[1..]);
    }
  }

  /** From start-up, the sequence add, undo, add, undo comes back to the empty list. */
  lemma AddsThenUndosReturnToEmpty(c1: Calculation, c2: Calculation)
    ensures Run(Init(), [AddCalculation(c1), UndoCommand, AddCalculation(c2), UndoCommand]).calculations == []
  {
    var h1 := Add(Init(), c1);
    AddThenUndo(Init(), c1);
    var h2 := Undo(h1);
    AddThenUndo(h2, c2);
    var cmds := [AddCalculation(c1), UndoCommand, AddCalculation(c2), UndoCommand];
    assert Run(Init(), cmds) == Run(h1, cmds[1..]);
    assert Run(h1, cmds[1..]) == Run(h2, cmds[2..]);
    assert Run(h2, cmds[2..]) == Run(Add(h2, c2), cmds[3..]);
    assert Run(Add(h2, c2), cmds[3..]) == Run(Undo(Add(h2, c2)), []);
  }
}
