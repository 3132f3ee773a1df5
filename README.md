# Dining-philosophers monitor, modelled in Dafny

`Monitor.java` is the arbiter of a dining-philosophers program. N philosophers
sit at a round table. Each one has a state, `THINKING`, `HUNGRY` or `EATING`,
kept in one array. There is also one `isPhilosopherTalking` flag that all of
them share.

- `pickUp(id)` marks philosopher `id` hungry. It then runs `test`, which waits
  until neither modular neighbour is eating and then marks the philosopher as
  eating.
- `putDown(id)` marks the philosopher thinking again.
- `requestTalk()` waits until the flag is clear and then sets it.
- `endTalk()` clears the flag.

Every method is `synchronized`. Each stretch of a body up to a `wait()` (or
up to its end) therefore runs atomically under the monitor's lock, because
`wait()` releases the lock and takes it back before the body goes on. The
model is that state machine, one step per such stretch:

- `neighbours.dfy` (module `Neighbours`): the right index `(p + 1) % N` and the
  left index `(p + (N - 1)) % N`, with their range and inverse properties. It
  also models the left index exactly as Java evaluates it on 32-bit `int`s
  (see Findings).
- `dining_state.dfy` (module `DiningState`): the `State` type and the guard of
  `test` (`CanEat`). Each step is a function on `seq<State>`. The invariant
  `Safe` says no two distinct neighbours eat together. A Call/Step/Run layer
  stands for an arbitrary interleaving of the monitor's atomic steps, and
  safety is proved for every such run that starts at the constructor.
- `monitor.dfy` (module `DiningMonitor`): class `Monitor` holds an
  `array<State>` and a `bool`. It has a constructor and five methods:
  `PickUp`, `TryEat`, `PutDown`, `TryRequestTalk` and `EndTalk`. The object
  invariant `Valid()` includes `Safe`. Each method's `ensures` ties the new
  abstract state to `Step` of the old one and states what the method returns.
  The two client methods replay the classic five-seat scenario and the
  two-talker scenario.

A call that would block in Java is modelled as a step that returns `false`.
The waiting pass of `test` or `requestTalk` changes nothing, though `PickUp`'s
hungry assignment stays in effect (`DiningState.Returns`). `PickUp` is the hungry assignment plus the first pass of
`test`'s loop, because both run under the same lock. `TryEat` is one later
pass of that loop after a wake-up. `TryRequestTalk` is one pass of
`requestTalk`. Its recursive re-call after `wait()` is just that step
repeated.

The guard in `test` (Monitor.java:116-118) needs both neighbours not eating.
So `FiveAtTable` shows that philosopher 2, seated between 1 and 3, still waits
after 1 alone has put down, and eats only once 3 has put down too.

With a single seat the lone philosopher is both of their own neighbours, and
the guard then lets them eat. `Safe` therefore counts only pairs of distinct
neighbours.

## Model

| member | source | states |
|---|---|---|
| `Neighbours.RightOf` | Monitor.java:113 | the right index lies in [0, N): it is p + 1, or 0 for the last seat |
| `Neighbours.LeftOf` | Monitor.java:114 | the left index lies in [0, N): it is p - 1, or N - 1 for seat 0 |
| `Neighbours.NeighbourInverse` | Monitor.java:113-114 | p is the left neighbour of its right neighbour and the right neighbour of its left neighbour |
| `Neighbours.NeighboursDistinct` | Monitor.java:113-114 | a seat is its own neighbour exactly when N = 1; the two neighbours coincide exactly when N <= 2 |
| `Neighbours.Wrap32` | Monitor.java:114 | Java `int` addition wraps to [-2^31, 2^31) and agrees with the exact sum modulo 2^32 |
| `Neighbours.JavaDiv` | Monitor.java:114 | Java `/` by a positive divisor truncates toward zero: the product quotient * divisor lies between 0 and the dividend and within one divisor of it, and the quotient equals the Euclidean quotient for a non-negative dividend |
| `Neighbours.JavaRem` | Monitor.java:114 | Java `%` by a positive divisor: `a == (a / b) * b + a % b` with Java's truncating `/`, magnitude below the divisor, sign of the dividend, equal to the Euclidean remainder for a non-negative dividend |
| `Neighbours.LeftOfAsWritten` | Monitor.java:114 | the left index as Java computes it lies strictly between -N and N |
| `Neighbours.LeftOfAsWrittenAgrees` | Monitor.java:114 | for N <= 2^30 the Java expression equals the intended left neighbour |
| `Neighbours.LeftOfAsWrittenOverflows` | Monitor.java:114 | for N = 2^30 + 2 and the last seat the Java expression is -1073741820, a negative index, where the intended left neighbour is 2^30 |
| `Neighbours.LeftOfAsWrittenWrongSeat` | Monitor.java:114 | for N = 1500000000 the Java expression gives seat 1294967297 the in-range index 0 instead of its left neighbour 1294967296, and gives seat 1294967296 the index -1 |
| `DiningState.Initial` | Monitor.java:38-43 | the initial states array has N entries, all `Thinking` |
| `DiningState.InitialSafe` | Monitor.java:37-44 | the constructor's state satisfies the no-adjacent-eaters invariant |
| `DiningState.CanEat` | Monitor.java:116-118 | the guard of `test`: when it holds, p is hungry and no eating philosopher is p or either of its neighbours |
| `DiningState.BecomeHungry` | Monitor.java:59 | entry p becomes `Hungry`, every other entry is unchanged, and nobody new is `Eating` |
| `DiningState.AfterTest` | Monitor.java:113-126 | one pass of `test` changes only entry p; p ends up `Eating` exactly when it already was or the guard held; when the guard fails nothing changes |
| `DiningState.AfterPickUp` | Monitor.java:57-61 | entry p ends `Eating` if the guard holds after the hungry assignment and `Hungry` otherwise; every other entry is unchanged |
| `DiningState.AfterPutDown` | Monitor.java:70 | entry p becomes `Thinking`, every other entry is unchanged, and nobody new is `Eating` |
| `DiningState.TestPreservesSafety` | Monitor.java:116-121 | the eating transition keeps the invariant that no two distinct neighbours eat together |
| `DiningState.BecomeHungryPreservesSafety` | Monitor.java:59 | the `HUNGRY` assignment in `pickUp` keeps the invariant |
| `DiningState.PutDownPreservesSafety` | Monitor.java:70 | the `THINKING` assignment in `putDown` keeps the invariant |
| `DiningState.PickUpPreservesSafety` | Monitor.java:57-61 | the whole `pickUp` step (hungry, then `test`) keeps the invariant |
| `DiningState.LoneHungryEats` | Monitor.java:58-60 | if everybody else is thinking, the `test` that `pickUp` runs succeeds and p eats |
| `DiningState.NobodyEatingThenHungryEat` | Monitor.java:116-118 | while nobody eats, every hungry philosopher passes the guard, so of N simultaneous callers the first one eats |
| `DiningState.PickUpThenPutDown` | Monitor.java:57-72 | `pickUp` then `putDown` leaves p thinking and every other entry as before (the state itself, if p was thinking) |
| `DiningState.Step` | Monitor.java:57-126 | one atomic step of any of the five public methods, up to its first `wait()`; a direct `test` call's first pass, and every pass after a wake-up, is a `Retest`; the number of seats never changes |
| `DiningState.Returns` | Monitor.java:57-126 | whether a step returns rather than waits: a call that waits is a `pickUp`, a `test` pass or a `requestTalk`; a waiting `test` pass or `requestTalk` changes nothing, a waiting `pickUp` leaves only the hungry assignment; a returning `requestTalk` found the flag free and sets it |
| `DiningState.Run` | Monitor.java:57-99 | a sequence of atomic steps applied in order keeps the number of seats |
| `DiningState.StepFrames` | Monitor.java:57-99 | `pickUp`, `test` and `putDown` never touch the talking flag; `requestTalk` and `endTalk` never touch the states |
| `DiningState.OnlyTestStartsEating` | Monitor.java:116-120 | a step that moves entry i into `Eating` is a `pickUp` by philosopher i + 1 or a re-check of position i, and the guard held for i at that moment |
| `DiningState.StepPreservesSafety` | Monitor.java:57-99 | every atomic step keeps the invariant |
| `DiningState.RunPreservesSafety` | Monitor.java:57-99 | every interleaving of steps that starts in a safe state ends in a safe state |
| `DiningState.TalkHeldUntilEnd` | Monitor.java:75-99 | once the talking flag is held, no `requestTalk` anywhere in a run without an `endTalk` returns (each waits, by `Returns`), and the flag stays held, so only one philosopher talks at a time |
| `DiningState.ReachableSafe` | Monitor.java:33-132 | no interleaving of steps from the constructor ever has two distinct neighbours eating |
| `DiningMonitor.Monitor.constructor` | Monitor.java:33-45 | N seats, every entry `Thinking`, flag false, invariant established |
| `DiningMonitor.Monitor.PickUp` | Monitor.java:57-61 | entry id-1 becomes `Hungry` and is then `Eating` exactly when the guard holds on that state; no other entry and not the flag change; invariant kept |
| `DiningMonitor.Monitor.TryEat` | Monitor.java:110-132 | succeeds exactly when the guard holds and then sets entry p to `Eating`; otherwise the wait branch leaves every entry and the flag unchanged; invariant kept |
| `DiningMonitor.Monitor.PutDown` | Monitor.java:68-72 | entry id-1 becomes `Thinking`; every other entry and the flag unchanged; invariant kept |
| `DiningMonitor.Monitor.TryRequestTalk` | Monitor.java:78-90 | returns exactly when `Returns` says the call returns: takes the flag exactly when it was false; if it was set, the call would wait and nothing changes; the states array is untouched |
| `DiningMonitor.Monitor.EndTalk` | Monitor.java:96-99 | clears the flag; the states array is untouched |
| `DiningMonitor.FiveAtTable` | Monitor.java:57-72 | with five seats, 1 and 3 eat; 2 waits, still waits after only 1 has put down, and eats once 3 has put down too |
| `DiningMonitor.TwoTalkers` | Monitor.java:78-99 | a second talk request waits while the first holds the flag and succeeds after `endTalk` |

## Left out

- Blocking and waking: `synchronized`, `wait()` and `notifyAll()` (Monitor.java:71, 81, 98, 125). A blocked call appears only as a step that returns `false`: a waiting pass of `test` or `requestTalk` changes nothing, and a waiting `pickUp` keeps its `HUNGRY` assignment. Who wakes up, and when, belongs to the concurrency layer and is not modelled.
- Liveness, fairness and starvation, for example "a waiting neighbour eventually eats after putDown". A sequential model cannot state them, and the code does not promise them.
- The `InterruptedException` handlers and their console output (Monitor.java:84-86, 129-131). These paths are not modelled, and the model's talking guarantee does not hold on them. An interrupted `test` returns with the philosopher still `HUNGRY`, so `pickUp` returns without eating. An interrupted `requestTalk` falls through to `isPhilosopherTalking = true` (Monitor.java:89) even while someone else holds the flag.
- The recursive re-call in `requestTalk` (Monitor.java:82). It is modelled as the single guarded step `TryRequestTalk`, which a woken caller repeats.
- Ids outside 1..N passed to `pickUp` or `putDown`, and positions outside 0..N-1 passed to the public `test` (Monitor.java:110). In Java these throw `ArrayIndexOutOfBoundsException`. For a position p >= N, `test` may first `wait()` on the neighbour entries before it throws on `states[p]`. The model makes 1 <= id <= N, and 0 <= position < N for `TryEat` and `Retest`, preconditions.
- CanEat: uses the corrected `LeftOf` for every N, so for N > 2^30 the model lets the last seats eat or wait where Java either throws on a negative index or, at seat 2(2^31 - N) + 1 when that seat is below N, checks seat 0 instead of its left neighbour (see Findings).
- N <= 0. A negative N throws when the array is allocated. N = 0 divides by zero in `test`. The constructor therefore requires N >= 1.
- The TODO about chopsticks (Monitor.java:35), which has no code behind it.
- The field `piNumberOfPhilosophers` and the `states` reference are never reassigned after construction, so the model makes them `const` fields.

## Findings

| source | as written | input that shows it | evidently intended | confidence | as-written member | corrected member |
|---|---|---|---|---|---|---|
| Monitor.java:114 | `(positionOfPhilosopher + (piNumberOfPhilosophers-1)) % piNumberOfPhilosophers` is evaluated in 32-bit `int`, and the sum overflows once N > 2^30 | N = 1073741826, last seat p = 1073741825: the sum wraps to -2147483646; Java's `%` gives -1073741820, so `states[...]` throws; for N = 1500000000, seat 1294967297 gets index 0 instead of 1294967296 (`Neighbours.LeftOfAsWrittenWrongSeat`) | the left neighbour (p - 1) mod N, here 1073741824; the Java expression gives it whenever N <= 2^30 (`Neighbours.LeftOfAsWrittenAgrees`) | low, not executed; it needs more than 2^30 philosophers | `Neighbours.LeftOfAsWrittenOverflows` | `Neighbours.LeftOf` |
