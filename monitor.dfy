/**
  The monitor object of Monitor.java: a fixed-size array of philosopher
  states and the talking flag, updated in place. Each method is one atomic
  step of a `synchronized` Java method, up to its first `wait()`. A step
  that would `wait()` returns false; the waiting pass of `test` or
  `requestTalk` changes nothing, though `PickUp`'s hungry assignment stays
  in effect. Each step is specified by DiningState.Step.
 */
module DiningMonitor {
  import opened Neighbours
  import opened DiningState

  class Monitor {
    /** The number of philosophers, fixed at construction. */
    const n: nat
    /** One entry per philosopher, indexed by position = id - 1. */
    const states: array<State>
    /** Whether some philosopher is in the talking section. */
    var isTalking: bool

    /** The object invariant: n seats, one entry each, no two neighbours eating. */
    ghost predicate Valid()
      reads this, states
    {
      1 <= n && states.Length == n && Safe(states[..])
    }

    /** The abstract value of the monitor. */
    ghost function Abs(): Snapshot
      reads this, states
    {
      Snapshot(states[..], isTalking)
    }

    /** `Monitor(int)`: everybody thinks and nobody talks. */
    constructor (numberOfPhilosophers: nat)
      requires 1 <= numberOfPhilosophers
      ensures Valid() && fresh(states)
      ensures n == numberOfPhilosophers
      ensures states[..] == Initial(numberOfPhilosophers) && !isTalking
    {
      var a := new State[numberOfPhilosophers];
      for i := 0 to numberOfPhilosophers
        invariant forall k :: 0 <= k < i ==> a[k] == Thinking
      {
        a[i] := Thinking;
      }
      n := numberOfPhilosophers;
      states := a;
      isTalking := false;
      new;
      assert states[..] == Initial(n);
      InitialSafe(n);
    }

    /**
      `pickUp(id)` up to its first wait: philosopher id becomes hungry and
      `test` runs once. The result says whether they now eat; if not, the
      Java call would wait and later run TryEat again.
     */
    method PickUp(id: nat) returns (ate: bool)
      requires Valid() && 1 <= id <= n
      modifies states
      ensures Valid()
      ensures Abs() == Step(old(Abs()), Call.PickUp(id))
      ensures ate == Returns(old(Abs()), Call.PickUp(id))
      ensures ate == CanEat(old(states[..])[id - 1 := Hungry], id - 1)
      ensures states[id - 1] == (if ate then Eating else Hungry)
      ensures forall i :: 0 <= i < n && i != id - 1 ==> states[i] == old(states[i])
    {
      var position := id - 1;
      states[position] := Hungry;
      BecomeHungryPreservesSafety(old(states[..]), position);
      assert states[..] == BecomeHungry(old(states[..]), position);
      ate := TryEat(position);
    }

    /** One pass of the loop in `test(position)`: eat if both neighbours are not eating, otherwise change nothing. */
    method TryEat(position: nat) returns (ate: bool)
      requires Valid() && position < n
      modifies states
      ensures Valid()
      ensures Abs() == Step(old(Abs()), Retest(position))
      ensures ate == Returns(old(Abs()), Retest(position))
      ensures ate == CanEat(old(states[..]), position)
      ensures ate ==> states[position] == Eating
      ensures forall i :: 0 <= i < n && i != position ==> states[i] == old(states[i])
      ensures !ate ==> states[..] == old(states[..])
    {
      var right := RightOf(position, n);
      var left := LeftOf(position, n);
      if states[left] != Eating && states[right] != Eating && states[position] == Hungry {
        states[position] := Eating;
        ate := true;
      } else {
        ate := false;
      }
      TestPreservesSafety(old(states[..]), position);
      assert states[..] == AfterTest(old(states[..]), position);
    }

    /** `putDown(id)`: philosopher id goes back to thinking; nothing else changes. */
    method PutDown(id: nat)
      requires Valid() && 1 <= id <= n
      modifies states
      ensures Valid()
      ensures Abs() == Step(old(Abs()), Call.PutDown(id))
      ensures states[id - 1] == Thinking
      ensures forall i :: 0 <= i < n && i != id - 1 ==> states[i] == old(states[i])
    {
      states[id - 1] := Thinking;
      PutDownPreservesSafety(old(states[..]), id - 1);
      assert states[..] == AfterPutDown(old(states[..]), id - 1);
    }

    /** `requestTalk()` up to its first wait: take the flag if it is free, otherwise change nothing. */
    method TryRequestTalk() returns (acquired: bool)
      requires Valid()
      modifies this
      ensures Valid()
      ensures Abs() == Step(old(Abs()), RequestTalk)
      ensures acquired == Returns(old(Abs()), RequestTalk)
      ensures acquired == !old(isTalking)
      ensures isTalking
      ensures unchanged(states)
    {
      if isTalking {
        acquired := false;
      } else {
        isTalking := true;
        acquired := true;
      }
    }

    /** `endTalk()`: release the flag; the states are untouched. */
    method EndTalk()
      requires Valid()
      modifies this
      ensures Valid()
      ensures Abs() == Step(old(Abs()), Call.EndTalk)
      ensures !isTalking
      ensures unchanged(states)
    {
      isTalking := false;
    }
  }

  /**
    Five philosophers: 1 and 3 pick up and eat; 2 then has to wait, and still
    waits after 1 puts down because 3 is eating; once 3 puts down too, 2 eats.
   */
  method FiveAtTable() returns (one: bool, three: bool, two: bool, twoAfterOne: bool, twoAfterBoth: bool)
    ensures one && three
    ensures !two && !twoAfterOne
    ensures twoAfterBoth
  {
    var m := new Monitor(5);
    one := m.PickUp(1);
    assert m.states[..] == [Eating, Thinking, Thinking, Thinking, Thinking];
    three := m.PickUp(3);
    assert m.states[..] == [Eating, Thinking, Eating, Thinking, Thinking];
    two := m.PickUp(2);
    assert m.states[..] == [Eating, Hungry, Eating, Thinking, Thinking];
    m.PutDown(1);
    twoAfterOne := m.TryEat(1);
    assert m.states[..] == [Thinking, Hungry, Eating, Thinking, Thinking];
    m.PutDown(3);
    twoAfterBoth := m.TryEat(1);
  }

  /** Talking: A takes the flag, B has to wait, and B gets it once A ends. */
  method TwoTalkers(n: nat) returns (a: bool, b: bool, bAfterEnd: bool)
    requires 1 <= n
    ensures a && !b && bAfterEnd
  {
    var m := new Monitor(n);
    a := m.TryRequestTalk();
    b := m.TryRequestTalk();
    m.EndTalk();
    bAfterEnd := m.TryRequestTalk();
  }
}
