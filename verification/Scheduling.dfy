/** `task_next` on a ring of tasks given as a sequence: which task is chosen, who is woken on the way, and
    how long anybody can be kept waiting. */
module Scheduling {
  import opened Wrappers
  import opened Words

  datatype TaskState = Paused | Running | Sleeping | Joining | Zombie

  /** The parts of a task the scheduler looks at. */
  datatype Tcb = Tcb(pid: nat, state: TaskState, sleepLimit: nat, cursor: U64)

  // ---- positions on a ring of n tasks

  function Next(n: nat, i: nat): nat
    requires i < n
  {
    if i + 1 == n then 0 else i + 1
  }

  /** The task `k` places after `start`. */
  function At(n: nat, start: nat, k: nat): (i: nat)
    requires start < n && k < n
    ensures i < n && Offset(n, start, i) == k
  {
    if start + k < n then start + k else start + k - n
  }

  /** How many places after `start` task `i` comes. */
  function Offset(n: nat, start: nat, i: nat): (k: nat)
    requires start < n && i < n
    ensures k < n
  {
    if i >= start then i - start else i + n - start
  }

  lemma AtOffset(n: nat, start: nat, i: nat)
    requires start < n && i < n
    ensures At(n, start, Offset(n, start, i)) == i
  {
  }

  // ---- one call of task_next

  /** `update_task_state` */
  function Wake(t: Tcb, now: nat): Tcb {
    if t.state == Sleeping && now > t.sleepLimit then t.(state := Running) else t
  }

  /** A task put to sleep for `ms` is never woken before that time is over, unless its deadline wraps. */
  lemma SleepsItsTimeIff(t: Tcb, now: U64, ms: U64)
    requires t.state == Sleeping && t.sleepLimit == Add64(now, ms)
    ensures (forall later: U64 :: Wake(t, later).state == Running ==> later > now + ms)
            <==> now + ms < 0x1_0000_0000_0000_0000
  {
    if now + ms >= 0x1_0000_0000_0000_0000 {
      var early: U64 := t.sleepLimit + 1;
      assert Wake(t, early).state == Running;
    }
  }

  /** Put to sleep at 10 ms for 2^64 - 1 ms, a task is woken at the next tick. */
  lemma WrappedDeadlineWakesEarly(t: Tcb)
    requires t.state == Sleeping && t.sleepLimit == Add64(10, 0xFFFF_FFFF_FFFF_FFFF)
    ensures t.sleepLimit == 9 && Wake(t, 10).state == Running
  {
  }

  /** Where the loop stops: at the first RUNNING task from place `k` on, or at place `limit`. */
  function StopAt(ring: seq<Tcb>, start: nat, limit: nat, k: nat): (stop: nat)
    requires start < |ring| && k <= limit <= |ring|
    ensures k <= stop <= limit
    ensures stop < limit ==> ring[At(|ring|, start, stop)].state == Running
    ensures forall j :: k <= j < stop ==> ring[At(|ring|, start, j)].state != Running
    decreases limit - k
  {
    if k == limit || ring[At(|ring|, start, k)].state == Running then k else StopAt(ring, start, limit, k + 1)
  }

  /** The ring after the loop has passed the `k` tasks from `start` on. */
  function Woken(ring: seq<Tcb>, start: nat, k: nat, now: nat): (r: seq<Tcb>)
    requires start < |ring| && k <= |ring|
    ensures |r| == |ring|
    ensures forall i :: 0 <= i < |ring| ==> r[i] == if Offset(|ring|, start, i) < k then Wake(ring[i], now) else ring[i]
  {
    seq(|ring|, i requires 0 <= i < |ring| => if Offset(|ring|, start, i) < k then Wake(ring[i], now) else ring[i])
  }

  datatype Choice = Choice(ring: seq<Tcb>, current: nat, fellBack: bool)

  function StartOf(n: nat, current: Option<nat>): (s: nat)
    requires n > 0 && (current.Some? ==> current.value < n)
    ensures s < n
  {
    if current.None? then n - 1 else Next(n, current.value)
  }

  /** With a current task the loop ends at it after n - 1 places; without one only a RUNNING task ends it. */
  function LimitOf(n: nat, current: Option<nat>): nat
    requires n > 0
  {
    if current.None? then n else n - 1
  }

  /** The null task is RUNNING, as `task_init` leaves it. */
  predicate RingOk(ring: seq<Tcb>, current: Option<nat>, nullTask: nat) {
    && nullTask < |ring| && ring[nullTask].state == Running
    && (current.Some? ==> current.value < |ring|)
  }

  predicate SomeoneRuns(ring: seq<Tcb>) {
    exists i :: 0 <= i < |ring| && ring[i].state == Running
  }

  /** What `task_next` needs to end: with no current task yet, somebody must be RUNNING. */
  predicate NextOk(ring: seq<Tcb>, current: Option<nat>, nullTask: nat) {
    && nullTask < |ring|
    && (current.Some? ==> current.value < |ring|)
    && (current.None? ==> SomeoneRuns(ring))
  }

  /** `task_next`: the fall-back to the null task is the loop coming round to the current one. */
  function TaskNext(ring: seq<Tcb>, current: Option<nat>, nullTask: nat, now: nat): (c: Choice)
    requires NextOk(ring, current, nullTask)
    ensures |c.ring| == |ring| && c.current < |ring|
  {
    var n := |ring|;
    var stop := StopAt(ring, StartOf(n, current), LimitOf(n, current), 0);
    var woken := Woken(ring, StartOf(n, current), stop, now);
    if stop == n - 1 && current.Some? then Choice(woken, nullTask, true)
    else
      LoopStops(ring, current, nullTask, stop);
      Choice(woken, At(n, StartOf(n, current), stop), false)
  }

  lemma LoopStops(ring: seq<Tcb>, current: Option<nat>, nullTask: nat, stop: nat)
    requires NextOk(ring, current, nullTask)
    requires stop == StopAt(ring, StartOf(|ring|, current), LimitOf(|ring|, current), 0)
    ensures stop < |ring|
  {
    if current.None? {
      var i :| 0 <= i < |ring| && ring[i].state == Running;
      AtOffset(|ring|, StartOf(|ring|, current), i);
    }
  }

  /** The RUNNING null task bounds the loop: it cannot come round unless the null task is the current one. */
  lemma NullTaskStopsTheLoop(ring: seq<Tcb>, current: Option<nat>, nullTask: nat, stop: nat)
    requires RingOk(ring, current, nullTask)
    requires stop == StopAt(ring, StartOf(|ring|, current), LimitOf(|ring|, current), 0)
    ensures stop < |ring|
    ensures stop == LimitOf(|ring|, current) ==> current == Some(nullTask)
  {
    var n, start := |ring|, StartOf(|ring|, current);
    var k := Offset(n, start, nullTask);
    AtOffset(n, start, nullTask);
    assert ring[At(n, start, k)].state == Running;
  }

  /** Nobody but the task at place `current` is RUNNING. */
  predicate NobodyElse(ring: seq<Tcb>, current: Option<nat>) {
    forall i :: 0 <= i < |ring| && Some(i) != current ==> ring[i].state != Running
  }

  /** Unless it falls back, the choice is the first RUNNING task after the current one. It falls back, on the null
      task in whatever state, exactly when no other task is RUNNING. */
  lemma PicksFirstRunning(ring: seq<Tcb>, current: Option<nat>, nullTask: nat, now: nat)
    requires NextOk(ring, current, nullTask)
    ensures var c, n, start := TaskNext(ring, current, nullTask, now), |ring|, StartOf(|ring|, current);
            && (c.fellBack <==> current.Some? && NobodyElse(ring, current))
            && (c.fellBack ==> c.current == nullTask)
            && (!c.fellBack ==>
                  && ring[c.current].state == Running && Some(c.current) != current
                  && forall i :: 0 <= i < n && ring[i].state == Running && Some(i) != current ==>
                       Offset(n, start, c.current) <= Offset(n, start, i))
            && (ring[nullTask].state == Running ==> ring[c.current].state == Running)
  {
    var c, n, start := TaskNext(ring, current, nullTask, now), |ring|, StartOf(|ring|, current);
    var stop := StopAt(ring, start, LimitOf(n, current), 0);
    LoopStops(ring, current, nullTask, stop);
    forall i | 0 <= i < n && ring[i].state == Running && Some(i) != current
      ensures stop <= Offset(n, start, i) < LimitOf(n, current)
    {
      AtOffset(n, start, i);
    }
    forall i | 0 <= i < n && c.fellBack && Some(i) != current ensures ring[i].state != Running {
      AtOffset(n, start, i);
    }
  }

  /** The loop changes a task only by waking it, and wakes only a sleeper whose deadline has passed. */
  lemma WakesOnlyOverdue(ring: seq<Tcb>, current: Option<nat>, nullTask: nat, now: nat, i: nat)
    requires NextOk(ring, current, nullTask) && i < |ring|
    ensures var t, u := ring[i], TaskNext(ring, current, nullTask, now).ring[i];
            u == t || (t.state == Sleeping && now > t.sleepLimit && u == t.(state := Running))
  {
  }

  // ---- what the loop of task_next goes through

  lemma WokenMore(ring: seq<Tcb>, start: nat, k: nat, now: nat)
    requires start < |ring| && k < |ring|
    ensures var at := At(|ring|, start, k);
            Woken(ring, start, k + 1, now) == Woken(ring, start, k, now)[at := Wake(ring[at], now)]
            && Woken(ring, start, k, now)[at] == ring[at]
  {
    forall i | 0 <= i < |ring| && Offset(|ring|, start, i) == k ensures i == At(|ring|, start, k) {
      AtOffset(|ring|, start, i);
    }
  }

  predicate NotRunning(ring: seq<Tcb>, start: nat, j: nat)
    requires start < |ring| && j < |ring|
  {
    ring[At(|ring|, start, j)].state != Running
  }

  /** A loop that has met neither a RUNNING task nor the current one has a next place to look at. */
  lemma LoopGoesOn(ring: seq<Tcb>, current: Option<nat>, nullTask: nat, k: nat)
    requires NextOk(ring, current, nullTask) && k <= LimitOf(|ring|, current) && k < |ring|
    requires forall j :: 0 <= j <= k ==> NotRunning(ring, StartOf(|ring|, current), j)
    requires current.Some? ==> At(|ring|, StartOf(|ring|, current), k) != current.value
    ensures k + 1 <= LimitOf(|ring|, current) && k + 1 < |ring|
    ensures At(|ring|, StartOf(|ring|, current), k + 1) == Next(|ring|, At(|ring|, StartOf(|ring|, current), k))
  {
    var n, start := |ring|, StartOf(|ring|, current);
    if current.None? {
      var i :| 0 <= i < n && ring[i].state == Running;
      AtOffset(n, start, i);
      assert !NotRunning(ring, start, Offset(n, start, i));
    }
  }

  lemma AtCurrent(n: nat, c: nat, k: nat)
    requires c < n && k < n
    ensures At(n, Next(n, c), k) == c <==> k == n - 1
  {
  }

  lemma StopIs(ring: seq<Tcb>, start: nat, limit: nat, k: nat)
    requires start < |ring| && k <= limit <= |ring|
    requires forall j :: 0 <= j < k ==> NotRunning(ring, start, j)
    requires k < limit ==> !NotRunning(ring, start, k)
    ensures StopAt(ring, start, limit, 0) == k
  {
    var stop := StopAt(ring, start, limit, 0);
    assert stop < k ==> NotRunning(ring, start, stop);
  }

  // ---- how far away a task is

  /** How many places ahead of `current` task `x` is, a full round when it is the current one. */
  function Ahead(n: nat, current: nat, x: nat): (d: nat)
    requires current < n && x < n
    ensures 1 <= d <= n
  {
    Offset(n, Next(n, current), x) + 1
  }

  /** When the choice stops short of `x`, `x` has come closer. */
  lemma CloserByOne(n: nat, current: nat, c: nat, x: nat)
    requires current < n && c < n && x < n && c != x
    requires Offset(n, Next(n, current), c) <= Offset(n, Next(n, current), x)
    ensures Ahead(n, c, x) < Ahead(n, current, x)
  {
  }

  /** A due sleeper that is still asleep after the call was not passed: the choice stopped short of it, unless it is
      the null task itself that the call falls back on. */
  lemma NotPassed(ring: seq<Tcb>, current: nat, nullTask: nat, now: nat, x: nat)
    requires NextOk(ring, Some(current), nullTask) && x < |ring|
    requires ring[x].state == Sleeping && now > ring[x].sleepLimit
    requires TaskNext(ring, Some(current), nullTask, now).ring[x].state != Running
    ensures var c, start := TaskNext(ring, Some(current), nullTask, now), Next(|ring|, current);
            && Offset(|ring|, start, c.current) <= Offset(|ring|, start, x)
            && (c.current == x ==> c.fellBack && x == current == nullTask)
    ensures TaskNext(ring, Some(current), nullTask, now).ring[x] == ring[x]
  {
    var n, start := |ring|, Next(|ring|, current);
    var stop := StopAt(ring, start, n - 1, 0);
    PicksFirstRunning(ring, Some(current), nullTask, now);
    assert Offset(n, start, x) >= stop;
    AtOffset(n, start, x);
  }
}
