/**
 * The memento of app/calculator_memento.py, and the Python list object it copies and hands out.
 * Lists are heap objects here because the caretaker shares them: `get_state` returns the
 * memento's own list, not a copy.
 */
module Mementos {
  import opened Calculations

  /** A Python `list` of calculations; several names may refer to the same one. */
  class CalcList {
    var items: seq<Calculation>

    constructor (initial: seq<Calculation>)
      ensures items == initial
    {
      items := initial;
    }

    /** `list.append`: the list grows in place. */
    method Append(c: Calculation)
      modifies this
      ensures items == old(items) + [c]
    {
      items := items + [c];
    }
  }

  class Memento {
    /** `_state`: a list of the memento's own, assigned once. */
    const state: CalcList

    /**
     * `CalculatorMemento.__init__`: `copy.deepcopy` of the given list. Calculations are
     * immutable values, so copying the list object is the whole of the deep copy.
     */
    constructor (historyState: CalcList)
      ensures fresh(state)
      ensures state.items == historyState.items
    {
      state := new CalcList(historyState.items);
    }

    /** `get_state`: the stored list itself, so whoever receives it can change the memento. */
    method GetState() returns (s: CalcList)
      ensures s == state
      ensures s.items == state.items
    {
      s := state;
    }
  }

  /** Appending to the list a memento was taken from leaves the memento as it was. */
  method SnapshotIsIndependent(source: CalcList, c: Calculation) returns (m: Memento)
    modifies source
    ensures source.items == old(source.items) + [c]
    ensures m.state.items == old(source.items)
    ensures m.state != source
  {
    m := new Memento(source);
    source.Append(c);
  }

  /** Appending to the list `get_state` returns changes the memento, and two calls return the same list. */
  method StateIsShared(m: Memento, c: Calculation) returns (s1: CalcList, s2: CalcList)
    modifies m.state
    ensures s1 == s2 == m.state
    ensures m.state.items == old(m.state.items) + [c]
  {
    s1 := m.GetState();
    s1.Append(c);
    s2 := m.GetState();
  }
}
