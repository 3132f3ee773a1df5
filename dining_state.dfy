/**
  The state machine underneath the dining-philosophers monitor. In
  Monitor.java each stretch of a `synchronized` body up to a `wait()` (or up
  to its end) runs atomically under the monitor's lock, so each such step is
  a function from the state before to the state after. A waiting pass of
  `test` or `requestTalk` changes nothing; a `pickUp` that then waits keeps
  its `Hungry` assignment.
 */
module DiningState {
  import opened Neighbours

  /** What one philosopher is doing (the `STATE` enum of Monitor.java). */
  datatype State = Thinking | Hungry | Eating

  /** The guard of `test`: p is hungry and neither neighbour is eating. */
  predicate CanEat(s: seq<State>, p: nat)
    requires p < |s|
    ensures CanEat(s, p) ==> s[p] == Hungry
    ensures CanEat(s, p) ==> forall j :: 0 <= j < |s| && s[j] == Eating ==>
      j != p && j != LeftOf(p, |s|) && j != RightOf(p, |s|)
  {
    && s[LeftOf(p, |s|)] != Eating
    && s[RightOf(p, |s|)] != Eating
    && s[p] == Hungry
  }

  /**
    No two distinct philosophers who share a chopstick eat at once. With a
    single seat the lone philosopher is their own neighbour, which is not a
    shared chopstick, so such a pair is not counted.
   */
  predicate Safe(s: seq<State>)
  {
    forall i :: 0 <= i < |s| && RightOf(i, |s|) != i ==>
      !(s[i] == Eating && s[RightOf(i, |s|)] == Eating)
  }

  /** The states array right after the constructor. */
  function Initial(n: nat): (s: seq<State>)
    ensures |s| == n
    ensures forall i :: 0 <= i < n ==> s[i] == Thinking
  {
    seq(n, _ => Thinking)
  }

  /** The first half of `pickUp`: the caller declares itself hungry. */
  function BecomeHungry(s: seq<State>, p: nat): (r: seq<State>)
    requires p < |s|
    ensures |r| == |s| && r[p] == Hungry
    ensures forall i :: 0 <= i < |s| && i != p ==> r[i] == s[i]
    ensures forall i :: 0 <= i < |s| && r[i] == Eating ==> s[i] == Eating
  {
    s[p := Hungry]
  }

  /**
    One pass of the loop in `test`: eat if the guard holds, otherwise wait
    with nothing changed. It is the only step into `Eating`, only for p, and
    only when the guard holds.
   */
  function AfterTest(s: seq<State>, p: nat): (r: seq<State>)
    requires p < |s|
    ensures |r| == |s|
    ensures forall i :: 0 <= i < |s| && i != p ==> r[i] == s[i]
    ensures r[p] == Eating <==> s[p] == Eating || CanEat(s, p)
    ensures !CanEat(s, p) ==> r == s
  {
    if CanEat(s, p) then s[p := Eating] else s
  }

  /** `pickUp` up to its first wait: become hungry, then one pass of `test`. */
  function AfterPickUp(s: seq<State>, p: nat): (r: seq<State>)
    requires p < |s|
    ensures |r| == |s|
    ensures r[p] == (if CanEat(BecomeHungry(s, p), p) then Eating else Hungry)
    ensures forall i :: 0 <= i < |s| && i != p ==> r[i] == s[i]
  {
    AfterTest(BecomeHungry(s, p), p)
  }

  /** `putDown`: the caller goes back to thinking. */
  function AfterPutDown(s: seq<State>, p: nat): (r: seq<State>)
    requires p < |s|
    ensures |r| == |s| && r[p] == Thinking
    ensures forall i :: 0 <= i < |s| && i != p ==> r[i] == s[i]
    ensures forall i :: 0 <= i < |s| && r[i] == Eating ==> s[i] == Eating
  {
    s[p := Thinking]
  }

  // ---------------------------------------------------------------------
  // Properties of single steps
  // ---------------------------------------------------------------------

  /** The constructor's state is safe. */
  lemma InitialSafe(n: nat)
    ensures Safe(Initial(n))
  {
  }

  /** A successful pass of `test` keeps neighbours from eating together. */
  lemma TestPreservesSafety(s: seq<State>, p: nat)
    requires p < |s| && Safe(s)
    ensures Safe(AfterTest(s, p))
  {
    var n := |s|;
    var t := AfterTest(s, p);
    if CanEat(s, p) {
      forall i | 0 <= i < n && RightOf(i, n) != i
        ensures !(t[i] == Eating && t[RightOf(i, n)] == Eating)
      {
        var j := RightOf(i, n);
        if i == p {
          assert t[j] == s[RightOf(p, n)];
        } else if j == p {
          NeighbourInverse(i, n);
          assert t[i] == s[LeftOf(p, n)];
        } else {
          assert t[i] == s[i] && t[j] == s[j];
        }
      }
    }
  }

  /** Becoming hungry takes nobody into `Eating`. */
  lemma BecomeHungryPreservesSafety(s: seq<State>, p: nat)
    requires p < |s| && Safe(s)
    ensures Safe(BecomeHungry(s, p))
  {
  }

  /** Putting the chopsticks down takes nobody into `Eating`. */
  lemma PutDownPreservesSafety(s: seq<State>, p: nat)
    requires p < |s| && Safe(s)
    ensures Safe(AfterPutDown(s, p))
  {
  }

  /** A whole `pickUp` step keeps the state safe. */
  lemma PickUpPreservesSafety(s: seq<State>, p: nat)
    requires p < |s| && Safe(s)
    ensures Safe(AfterPickUp(s, p))
  {
    BecomeHungryPreservesSafety(s, p);
    TestPreservesSafety(BecomeHungry(s, p), p);
  }

  /** A philosopher who picks up while everybody else thinks eats at once. */
  lemma LoneHungryEats(s: seq<State>, p: nat)
    requires p < |s|
    requires forall i :: 0 <= i < |s| && i != p ==> s[i] == Thinking
    ensures CanEat(BecomeHungry(s, p), p)
    ensures AfterPickUp(s, p) == s[p := Eating]
  {
  }

  /** While nobody eats, every hungry philosopher passes the guard; in particular the first of a crowd of callers eats. */
  lemma NobodyEatingThenHungryEat(s: seq<State>, p: nat)
    requires p < |s| && s[p] == Hungry
    requires forall i :: 0 <= i < |s| ==> s[i] != Eating
    ensures CanEat(s, p)
  {
  }

  /** `pickUp` followed by `putDown` leaves p thinking and everybody else as before. */
  lemma PickUpThenPutDown(s: seq<State>, p: nat)
    requires p < |s|
    ensures AfterPutDown(AfterPickUp(s, p), p) == s[p := Thinking]
    ensures s[p] == Thinking ==> AfterPutDown(AfterPickUp(s, p), p) == s
  {
  }

  // ---------------------------------------------------------------------
  // Runs: any interleaving of the monitor's atomic steps
  // ---------------------------------------------------------------------

  /** What the monitor holds: the states array and the talking flag. */
  datatype Snapshot = Snapshot(states: seq<State>, talking: bool)

  /**
    One atomic step of the monitor. `PickUp(id)` and `PutDown(id)` take the
    philosopher's 1-based id, as the Java methods do; `Retest(p)` is one more
    pass of `test` for position p after a wake-up.
   */
  datatype Call = PickUp(id: nat) | Retest(position: nat) | PutDown(id: nat) | RequestTalk | EndTalk

  /** What a step demands of its caller: an id in 1 .. n, or a position in 0 .. n-1. */
  predicate WellFormed(c: Call, n: nat)
  {
    match c
    case PickUp(id) => 1 <= id <= n
    case Retest(p) => p < n
    case PutDown(id) => 1 <= id <= n
    case RequestTalk => true
    case EndTalk => true
  }

  /** The effect of one atomic step; `RequestTalk` while the flag is set waits and changes nothing. */
  function Step(m: Snapshot, c: Call): (r: Snapshot)
    requires WellFormed(c, |m.states|)
    ensures |r.states| == |m.states|
  {
    match c
    case PickUp(id) => m.(states := AfterPickUp(m.states, id - 1))
    case Retest(p) => m.(states := AfterTest(m.states, p))
    case PutDown(id) => m.(states := AfterPutDown(m.states, id - 1))
    case RequestTalk => if m.talking then m else m.(talking := true)
    case EndTalk => m.(talking := false)
  }

  /**
    Whether the call returns rather than waits: `pickUp` and a re-check return
    once the guard of `test` holds, `requestTalk` once the flag is free, and
    `putDown` and `endTalk` always. A waiting re-check or `requestTalk`
    changes nothing; a waiting `pickUp` leaves only its `HUNGRY` assignment.
   */
  predicate Returns(m: Snapshot, c: Call)
    requires WellFormed(c, |m.states|)
    ensures !Returns(m, c) ==> c.PickUp? || c.Retest? || c.RequestTalk?
    ensures !Returns(m, c) && !c.PickUp? ==> Step(m, c) == m
    ensures !Returns(m, c) && c.PickUp? ==> Step(m, c) == m.(states := BecomeHungry(m.states, c.id - 1))
    ensures Returns(m, c) && c.RequestTalk? ==> !m.talking && Step(m, c).talking
  {
    match c
    case PickUp(id) => CanEat(BecomeHungry(m.states, id - 1), id - 1)
    case Retest(p) => CanEat(m.states, p)
    case PutDown(_) => true
    case RequestTalk => !m.talking
    case EndTalk => true
  }

  /** Every step of the sequence is well formed for n seats. */
  predicate AllWellFormed(calls: seq<Call>, n: nat)
  {
    forall k :: 0 <= k < |calls| ==> WellFormed(calls[k], n)
  }

  /** The steps applied one after another, first to last. */
  function Run(m: Snapshot, calls: seq<Call>): (r: Snapshot)
    requires AllWellFormed(calls, |m.states|)
    ensures |r.states| == |m.states|
    decreases |calls|
  {
    if calls == [] then m else Run(Step(m, calls[0]), calls[1..])
  }

  /** The philosopher steps never touch the flag, and the talking steps never touch the states. */
  lemma StepFrames(m: Snapshot, c: Call)
    requires WellFormed(c, |m.states|)
    ensures (c.PickUp? || c.Retest? || c.PutDown?) ==> Step(m, c).talking == m.talking
    ensures (c.RequestTalk? || c.EndTalk?) ==> Step(m, c).states == m.states
  {
  }

  /** Only a pass of `test` whose guard holds, for that very position, starts somebody eating. */
  lemma OnlyTestStartsEating(m: Snapshot, c: Call, i: nat)
    requires WellFormed(c, |m.states|) && i < |m.states|
    requires m.states[i] != Eating && Step(m, c).states[i] == Eating
    ensures c.PickUp? ==> c.id == i + 1 && CanEat(BecomeHungry(m.states, i), i)
    ensures c.Retest? ==> c.position == i && CanEat(m.states, i)
    ensures c.PickUp? || c.Retest?
  {
  }

  /** Every step keeps the state safe. */
  lemma StepPreservesSafety(m: Snapshot, c: Call)
    requires WellFormed(c, |m.states|) && Safe(m.states)
    ensures Safe(Step(m, c).states)
  {
    match c
    case PickUp(id) => PickUpPreservesSafety(m.states, id - 1);
    case Retest(p) => TestPreservesSafety(m.states, p);
    case PutDown(id) => PutDownPreservesSafety(m.states, id - 1);
    case RequestTalk =>
    case EndTalk =>
  }

  /** Safety holds after any interleaving of steps that starts from a safe state. */
  lemma {:induction false} RunPreservesSafety(m: Snapshot, calls: seq<Call>)
    requires AllWellFormed(calls, |m.states|) && Safe(m.states)
    ensures Safe(Run(m, calls).states)
    decreases |calls|
  {
    if calls != [] {
      StepPreservesSafety(m, calls[0]);
      RunPreservesSafety(Step(m, calls[0]), calls[1..]);
    }
  }

  /**
    Talking is exclusive: once the flag is held, no `RequestTalk` in a run
    without an `EndTalk` returns, and the flag is still held at the end.
   */
  lemma {:induction false} TalkHeldUntilEnd(m: Snapshot, calls: seq<Call>)
    requires AllWellFormed(calls, |m.states|) && m.talking
    requires forall k :: 0 <= k < |calls| ==> !calls[k].EndTalk?
    ensures Run(m, calls).talking
    ensures forall k :: 0 <= k < |calls| && calls[k].RequestTalk? ==>
      AllWellFormed(calls[..k], |m.states|) && !Returns(Run(m, calls[..k]), calls[k])
    decreases |calls|
  {
    if calls != [] {
      var m1 := Step(m, calls[0]);
      StepFrames(m, calls[0]);
      TalkHeldUntilEnd(m1, calls[1..]);
      forall k | 0 <= k < |calls| && calls[k].RequestTalk?
        ensures AllWellFormed(calls[..k], |m.states|) && !Returns(Run(m, calls[..k]), calls[k])
      {
        assert AllWellFormed(calls[..k], |m.states|);
        if k > 0 {
          assert calls[..k][1..] == calls[1..][..k - 1];
          assert calls[1..][k - 1] == calls[k];
          assert Run(m, calls[..k]) == Run(m1, calls[1..][..k - 1]);
        }
      }
    }
  }

  /** Hence no run of the monitor from its constructor ever has two neighbours eating. */
  lemma ReachableSafe(n: nat, calls: seq<Call>)
    requires AllWellFormed(calls, n)
    ensures Safe(Run(Snapshot(Initial(n), false), calls).states)
  {
    InitialSafe(n);
    RunPreservesSafety(Snapshot(Initial(n), false), calls);
  }
}
