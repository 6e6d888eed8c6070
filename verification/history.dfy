/**
 * The caretaker of app/history.py as written. `restore_from_memento` makes the live list the
 * memento's own list object, so after a successful undo or redo `add_calculation` appends to a list
 * that a memento on the undo stack also holds.
 */
module Histories {
  import opened Calculations
  import opened Mementos
  import Timeline

  /** The list objects the given mementos hold; a memento never swaps its list for another. */
  function StateLists(ms: seq<Memento>): (ls: seq<CalcList>)
    ensures |ls| == |ms|
    ensures forall i :: 0 <= i < |ms| ==> ls[i] == ms[i].state
  {
    seq(|ms|, i requires 0 <= i < |ms| => ms[i].state)
  }

  /** The contents of the mementos' lists, bottom of the stack first. */
  ghost function States(ms: seq<Memento>): (r: seq<seq<Calculation>>)
    reads StateLists(ms)
    ensures |r| == |ms|
    ensures forall i :: 0 <= i < |ms| ==> r[i] == ms[i].state.items
  {
    var ls := StateLists(ms);
    seq(|ls|, i requires 0 <= i < |ls| reads ls => ls[i].items)
  }

  lemma StatesSnoc(ms: seq<Memento>, m: Memento)
    ensures States(ms + [m]) == States(ms) + [m.state.items]
  {
    assert (ms + [m])[..|ms|] == ms;
  }

  lemma StatesPrefix(ms: seq<Memento>, k: nat)
    requires k <= |ms|
    ensures States(ms[..k]) == States(ms)[..k]
  {
  }

  class History {
    var calculations: CalcList
    var undoStack: seq<Memento>
    var redoStack: seq<Memento>

    /** The undo stack is never empty and its top memento holds the contents of the live list. */
    ghost predicate Valid()
      reads this, calculations, StateLists(undoStack), StateLists(redoStack)
    {
      |undoStack| >= 1 && undoStack[|undoStack| - 1].state.items == calculations.items
    }

    /** The caretaker seen as values: live contents, then the states on each stack. */
    ghost function View(): Timeline.History
      reads this, calculations, StateLists(undoStack), StateLists(redoStack)
    {
      Timeline.History(calculations.items, States(undoStack), States(redoStack))
    }

    /** The class invariant is the value-level invariant of the timeline. */
    lemma ValidView()
      requires Valid()
      ensures Timeline.Valid(View())
    {
    }

    /** The live list is a list of its own, not the list of any memento. */
    ghost predicate Detached()
      reads this
    {
      calculations !in StateLists(undoStack) && calculations !in StateLists(redoStack)
    }

    /** Once the live list is the list of the top memento, as after any successful undo or redo, it is no longer detached. */
    lemma SharedAfterRestore()
      requires |undoStack| >= 1 && calculations == undoStack[|undoStack| - 1].state
      ensures !Detached()
    {
      assert StateLists(undoStack)[|undoStack| - 1] == calculations;
    }

    /** `__init__`: an empty live list and one memento of it. */
    constructor ()
      ensures Valid() && Detached()
      ensures View() == Timeline.Init()
      ensures fresh(calculations) && fresh(undoStack[0]) && fresh(undoStack[0].state)
    {
      calculations := new CalcList([]);
      new;
      var m := CreateMemento();
      undoStack := [m];
      redoStack := [];
    }

    /** `create_memento`: a memento of a fresh copy of the live list. */
    method CreateMemento() returns (m: Memento)
      ensures fresh(m) && fresh(m.state)
      ensures m.state.items == calculations.items
    {
      m := new Memento(calculations);
    }

    /** `restore_from_memento`: the live list becomes the memento's own list object. */
    method RestoreFromMemento(m: Memento)
      modifies this`calculations
      ensures calculations == m.state
    {
      calculations := m.GetState();
    }

    /** `add_calculation`: append in place, clear the redo stack, push a memento of the result. */
    method AddCalculation(c: Calculation)
      requires Valid()
      modifies this, calculations
      ensures Valid()
      ensures calculations == old(calculations)
      ensures calculations.items == old(calculations.items) + [c]
      ensures redoStack == []
      ensures |undoStack| == |old(undoStack)| + 1 && undoStack[..|old(undoStack)|] == old(undoStack)
      ensures fresh(undoStack[|undoStack| - 1]) && fresh(undoStack[|undoStack| - 1].state)
      // a memento whose list is the live list grows with it; every other memento is untouched
      ensures forall m :: m in old(undoStack) ==>
        m.state.items == if m.state == calculations then calculations.items else old(m.state.items)
      ensures old(Detached()) ==> Detached() && View() == Timeline.Add(old(View()), c)
    {
      ghost var u, su, detached := undoStack, States(undoStack), Detached();
      calculations.Append(c);
      redoStack := [];
      var m := CreateMemento();
      undoStack := undoStack + [m];
      StatesSnoc(u, m);
      if detached {
        assert calculations !in StateLists(u);
        assert States(u) == su;
        assert StateLists(undoStack) == StateLists(u) + [m.state];
      }
    }

    /** `undo`: with at least two mementos, move the top one to the redo stack and restore the new top. */
    method Undo() returns (undone: bool)
      requires Valid()
      modifies this
      ensures Valid()
      ensures undone == (|old(undoStack)| > 1)
      ensures !undone ==>
        undoStack == old(undoStack) && redoStack == old(redoStack) && calculations == old(calculations)
      ensures undone ==>
        undoStack == old(undoStack)[..|old(undoStack)| - 1] &&
        redoStack == old(redoStack) + [old(undoStack)[|old(undoStack)| - 1]] &&
        calculations == undoStack[|undoStack| - 1].state
      ensures View() == Timeline.Undo(old(View()))
    {
      if |undoStack| <= 1 {
        return false;
      }
      ghost var u, r := undoStack, redoStack;
      ghost var su, sr := States(u), States(r);
      var n := |undoStack|;
      var top := undoStack[n - 1];
      undoStack := undoStack[..n - 1];
      redoStack := redoStack + [top];
      RestoreFromMemento(undoStack[n - 2]);
      undone := true;
      assert States(u) == su;
      assert States(r) == sr;
      StatesPrefix(u, n - 1);
      StatesSnoc(r, top);
      assert su[n - 2] == calculations.items && su[n - 1] == top.state.items;
    }

    /** `redo`: with a non-empty redo stack, move its top back onto the undo stack and restore it. */
    method Redo() returns (redone: bool)
      requires Valid()
      modifies this
      ensures Valid()
      ensures redone == (|old(redoStack)| > 0)
      ensures !redone ==>
        undoStack == old(undoStack) && redoStack == old(redoStack) && calculations == old(calculations)
      ensures redone ==>
        undoStack == old(undoStack) + [old(redoStack)[|old(redoStack)| - 1]] &&
        redoStack == old(redoStack)[..|old(redoStack)| - 1] &&
        calculations == undoStack[|undoStack| - 1].state
      ensures View() == Timeline.Redo(old(View()))
    {
      if |redoStack| == 0 {
        return false;
      }
      ghost var u, r := undoStack, redoStack;
      ghost var su, sr := States(u), States(r);
      var k := |redoStack|;
      var m := redoStack[k - 1];
      redoStack := redoStack[..k - 1];
      undoStack := undoStack + [m];
      RestoreFromMemento(m);
      redone := true;
      assert States(u) == su;
      assert States(r) == sr;
      StatesSnoc(u, m);
      StatesPrefix(r, k - 1);
      assert sr[k - 1] == m.state.items;
    }
  }

  /**
   * add, undo, add, undo from start-up: the second addition went into the list of the
   * start-up memento, so the last undo shows it instead of the empty list.
   */
  method UndoAfterAddAfterUndo(c1: Calculation, c2: Calculation) returns (shown: seq<Calculation>)
    ensures shown == [c2]
  {
    var h := new History();
    ghost var start := h.undoStack[0];
    assert start.state.items == [];
    h.AddCalculation(c1);
    assert h.undoStack[0] == start && start.state.items == [];
    var _ := h.Undo();
    assert h.undoStack == [start] && h.calculations == start.state;
    h.AddCalculation(c2);
    assert h.undoStack[0] == start && start.state.items == [c2];
    var _ := h.Undo();
    shown := h.calculations.items;
  }
}
