/**
 * The `Subject` of app/calculator.py: an ordered list of observers that `notify` calls one by
 * one. Observers are opaque identities; the effect of `observer.update(calculation)` is
 * recorded as one event on a trace, in the order the calls happen.
 */
module Observing {
  import opened Calculations

  type ObserverId = nat

  /** One call `observer.update(calculation)`. */
  datatype Event = Update(observer: ObserverId, calculation: Calculation)

  /** What `list.remove` reports when the element is absent: Python raises `ValueError`. */
  datatype Outcome = Done | ValueError(message: string)

  const RemoveMissingMessage := "list.remove(x): x not in list"

  predicate NoDuplicates(s: seq<ObserverId>) {
    forall i, j :: 0 <= i < j < |s| ==> s[i] != s[j]
  }

  /** The calls `notify(c)` makes, in list order. */
  function Broadcast(observers: seq<ObserverId>, c: Calculation): (events: seq<Event>)
    ensures |events| == |observers|
    ensures forall i :: 0 <= i < |observers| ==> events[i] == Update(observers[i], c)
  {
    if observers == [] then [] else [Update(observers[0], c)] + Broadcast(observers[1..], c)
  }

  /** How many of the events went to `o`. */
  function Deliveries(events: seq<Event>, o: ObserverId): nat
  {
    if events == [] then 0
    else (if events[0].observer == o then 1 else 0) + Deliveries(events[1..], o)
  }

  /** With no duplicates attached, each attached observer is updated exactly once and no one else at all. */
  lemma {:induction false} BroadcastDeliversOnce(observers: seq<ObserverId>, c: Calculation, o: ObserverId)
    requires NoDuplicates(observers)
    ensures Deliveries(Broadcast(observers, c), o) == if o in observers then 1 else 0
  {
    if observers != [] {
      var rest := observers[1..];
      assert NoDuplicates(rest) by {
        forall i, j | 0 <= i < j < |rest| ensures rest[i] != rest[j] {
          assert rest[i] == observers[i + 1] && rest[j] == observers[j + 1];
        }
      }
      BroadcastDeliversOnce(rest, c, o);
      assert Broadcast(observers, c)[1..] == Broadcast(rest, c);
      if o == observers[0] {
        assert o !in rest by {
          forall k | 0 <= k < |rest| ensures rest[k] != o {
            assert rest[k] == observers[k + 1];
          }
        }
      } else {
        assert o in observers <==> o in rest;
      }
    }
  }

  /** The position of the first occurrence of `x`. */
  function IndexOf(s: seq<ObserverId>, x: ObserverId): (i: nat)
    requires x in s
    ensures i < |s| && s[i] == x && x !in s[..i]
  {
    if s[0] == x then 0 else 1 + IndexOf(s[1..], x)
  }

  /** `list.remove(x)`: drop the first occurrence of `x`, keeping the order of the rest. */
  function RemoveFirst(s: seq<ObserverId>, x: ObserverId): (r: seq<ObserverId>)
    requires x in s
    ensures |r| == |s| - 1
  {
    var i := IndexOf(s, x);
    s[..i] + s[i + 1..]
  }

  /** Without duplicates, removal takes out `x` alone and keeps the others in their order. */
  lemma RemoveFirstSpec(s: seq<ObserverId>, x: ObserverId)
    requires x in s && NoDuplicates(s)
    ensures x !in RemoveFirst(s, x)
    ensures forall y :: y in RemoveFirst(s, x) <==> y in s && y != x
    ensures NoDuplicates(RemoveFirst(s, x))
    ensures exists i :: 0 <= i < |s| && RemoveFirst(s, x) == s[..i] + s[i + 1..] && s[i] == x
  {
    var i := IndexOf(s, x);
    var r := RemoveFirst(s, x);
    assert forall k :: 0 <= k < |r| ==> r[k] == if k < i then s[k] else s[k + 1];
    forall y ensures y in r <==> y in s && y != x {
      if y in s && y != x {
        var k :| 0 <= k < |s| && s[k] == y;
        assert k != i;
        assert r[if k < i then k else k - 1] == y;
      }
    }
  }

  /** An observer that has been detached gets nothing from a later notification. */
  lemma DetachedObserverNotUpdated(s: seq<ObserverId>, x: ObserverId, c: Calculation)
    requires x in s && NoDuplicates(s)
    ensures Deliveries(Broadcast(RemoveFirst(s, x), c), x) == 0
  {
    RemoveFirstSpec(s, x);
    BroadcastDeliversOnce(RemoveFirst(s, x), c, x);
  }

  class Subject {
    /** `_observers`, in attachment order. */
    var observers: seq<ObserverId>
    /** Every `update` call made so far, oldest first. */
    var received: seq<Event>

    /** `attach` never lets an observer in twice. */
    ghost predicate Valid()
      reads this
    {
      NoDuplicates(observers)
    }

    constructor ()
      ensures Valid() && observers == [] && received == []
    {
      observers := [];
      received := [];
    }

    /** `attach`: append the observer unless it is already there. */
    method Attach(o: ObserverId)
      requires Valid()
      modifies this`observers
      ensures Valid()
      ensures o in observers
      ensures observers == if o in old(observers) then old(observers) else old(observers) + [o]
    {
      if o !in observers {
        observers := observers + [o];
      }
    }

    /** `detach`: `list.remove`, which raises `ValueError` for an observer that is not attached. */
    method Detach(o: ObserverId) returns (outcome: Outcome)
      requires Valid()
      modifies this`observers
      ensures Valid()
      ensures outcome == if o in old(observers) then Done else ValueError(RemoveMissingMessage)
      ensures o in old(observers) ==> observers == RemoveFirst(old(observers), o)
      ensures o !in old(observers) ==> observers == old(observers)
      ensures o !in observers
    {
      if o !in observers {
        return ValueError(RemoveMissingMessage);
      }
      RemoveFirstSpec(observers, o);
      observers := RemoveFirst(observers, o);
      outcome := Done;
    }

    /** `notify`: call `update` on each observer, in list order. */
    method Notify(c: Calculation)
      modifies this`received
      ensures received == old(received) + Broadcast(observers, c)
    {
      var i := 0;
      while i < |observers|
        invariant 0 <= i <= |observers|
        invariant received == old(received) + Broadcast(observers[..i], c)
      {
        assert Broadcast(observers[..i + 1], c) == Broadcast(observers[..i], c) + [Update(observers[i], c)];
        received := received + [Update(observers[i], c)];
        i := i + 1;
      }
      assert observers[..i] == observers;
    }
  }
}
