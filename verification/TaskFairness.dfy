/** Who waits for how many switches, while tasks come, go and change state between them. */
module TaskFairness {
  import opened Wrappers
  import opened Words
  import opened Scheduling
  import opened HeapCursors

  function Switches(ops: seq<Op>): nat {
    if ops == [] then 0 else (if ops[0].Switch? then 1 else 0) + Switches(ops[1..])
  }

  function Creates(ops: seq<Op>): nat {
    if ops == [] then 0 else (if ops[0].Create? then 1 else 0) + Creates(ops[1..])
  }

  /** RUNNING, or asleep with its deadline passed by the clock of the next switch. */
  predicate Wants(t: Tcb, now: nat) {
    t.state == Running || (t.state == Sleeping && now > t.sleepLimit)
  }

  /** Nobody stops task `pid`: it is not removed, only made RUNNING, and if asleep then overdue at every switch. */
  predicate LetsRun(s: Sched, op: Op, pid: nat)
    requires SchedOk(s) && Enabled(s, op)
  {
    match op
    case SetState(i, state, _) => s.ring[i].pid == pid ==> state == Running
    case Remove(i) => s.ring[i].pid != pid
    case Switch(now) => forall x :: 0 <= x < |s.ring| && s.ring[x].pid == pid ==> Wants(s.ring[x], now)
    case _ => true
  }

  predicate NeverStopped(s: Sched, ops: seq<Op>, pid: nat)
    requires SchedOk(s) && RunEnabled(s, ops)
    decreases |ops|
  {
    ops == [] || (LetsRun(s, ops[0], pid) && NeverStopped(Step(s, ops[0]), ops[1..], pid))
  }

  predicate IsCurrent(s: Sched, pid: nat)
    requires SchedOk(s)
  {
    s.current.Some? && s.ring[s.current.value].pid == pid
  }

  /** Some switch of the run makes task `pid` the current one. */
  predicate Served(s: Sched, ops: seq<Op>, pid: nat)
    requires SchedOk(s) && RunEnabled(s, ops)
    decreases |ops|
  {
    ops != [] &&
    var r := Step(s, ops[0]);
    (ops[0].Switch? && IsCurrent(r, pid)) || Served(r, ops[1..], pid)
  }

  /** The switches after which task `x` has been served: as many as it is places ahead, a round more when it must be
      woken first, and one more, or two, for every task created meanwhile. */
  function Bound(s: Sched, x: nat, creates: nat): nat
    requires SchedOk(s) && s.current.Some? && x < |s.ring|
  {
    var ahead := Ahead(|s.ring|, s.current.value, x);
    if s.ring[x].state == Running then ahead + creates else ahead + |s.ring| + 2 * creates
  }

  /** Where task `x` stands after `op`. */
  function Moved(op: Op, x: nat): nat {
    if op.Remove? && op.i < x then x - 1 else x
  }

  /** A switch that does not serve a RUNNING task comes at least one place closer. */
  lemma RunningComesCloser(s: Sched, now: nat, x: nat)
    requires SchedOk(s) && s.current.Some? && x < |s.ring| && s.ring[x].state == Running
    ensures var r := Switched(s, now);
            && r.ring[x].state == Running && r.current.Some?
            && (r.current != Some(x) ==>
                  Ahead(|s.ring|, r.current.value, x) < Ahead(|s.ring|, s.current.value, x))
  {
    var r, n, c := Switched(s, now), |s.ring|, s.current.value;
    PicksFirstRunning(s.ring, Some(c), s.nullTask, now);
    if r.current != Some(x) && x != c { CloserByOne(n, c, r.current.value, x); }
  }

  /** A switch wakes an overdue sleeper or comes at least one place closer to it. */
  lemma SleeperComesCloser(s: Sched, now: nat, x: nat)
    requires SchedOk(s) && s.current.Some? && x < |s.ring| && s.ring[x].state == Sleeping && Wants(s.ring[x], now)
    ensures var r := Switched(s, now);
            && r.current.Some?
            && (|| r.ring[x].state == Running
                || (r.ring[x] == s.ring[x]
                    && (r.current != Some(x) ==>
                          Ahead(|s.ring|, r.current.value, x) < Ahead(|s.ring|, s.current.value, x))))
  {
    var r, n, c := Switched(s, now), |s.ring|, s.current.value;
    if r.ring[x].state != Running {
      NotPassed(s.ring, c, s.nullTask, now, x);
      if r.current != Some(x) { CloserByOne(n, c, r.current.value, x); }
    }
  }

  /** A switch that does not serve a task that wants to run brings it one switch nearer to being served. */
  lemma SwitchComesCloser(s: Sched, now: nat, x: nat, creates: nat)
    requires SchedOk(s) && s.current.Some? && x < |s.ring| && Wants(s.ring[x], now)
    ensures var r := Step(s, Switch(now));
            && |r.ring| == |s.ring| && r.ring[x].pid == s.ring[x].pid
            && r.current.Some? && r.ring[x].state in {Running, Sleeping}
            && (r.current != Some(x) ==> Bound(r, x, creates) < Bound(s, x, creates))
  {
    SavedCursors(s);
    SwitchedCursors(Saved(s), now);
    if s.ring[x].state == Running {
      RunningComesCloser(Saved(s), now, x);
    } else {
      SleeperComesCloser(Saved(s), now, x);
    }
  }

  /** What comes between switches leaves a task that is not stopped as it wants to run. */
  lemma OtherStepsKeepTask(s: Sched, op: Op, x: nat)
    requires SchedOk(s) && Enabled(s, op) && !op.Switch? && s.current.Some? && x < |s.ring|
    requires s.ring[x].state in {Running, Sleeping} && LetsRun(s, op, s.ring[x].pid)
    ensures op.Remove? ==> op.i != x
    ensures var r, y := Step(s, op), Moved(op, x);
            && y < |r.ring| && r.current.Some? && r.ring[y].pid == s.ring[x].pid
            && (r.ring[y].state == Running || r.ring[y].state == s.ring[x].state)
  {
  }

  /** It moves nobody away from the current task, but for a creation, which may put one task in front. */
  lemma OtherStepsKeepPlace(s: Sched, op: Op, x: nat)
    requires SchedOk(s) && Enabled(s, op) && !op.Switch? && s.current.Some? && x < |s.ring|
    requires op.Remove? ==> op.i != x
    ensures var r, y, more := Step(s, op), Moved(op, x), if op.Create? then 1 else 0;
            && y < |r.ring| && r.current.Some? && |r.ring| <= |s.ring| + more
            && Ahead(|r.ring|, r.current.value, y) <= Ahead(|s.ring|, s.current.value, x) + more
  {
    if op.Remove? { RemovalKeepsPlace(|s.ring|, s.current.value, x, op.i); }
  }

  lemma RemovalKeepsPlace(n: nat, current: nat, x: nat, i: nat)
    requires current < n && x < n && i < n && i != current && i != x
    ensures Ahead(n - 1, Shifted(current, i), Shifted(x, i)) <= Ahead(n, current, x)
  {
  }

  /** A task that wants to run and is not stopped is served once there have been as many switches as `Bound` says,
      whatever tasks are created, removed, woken, stopped or allocate in between. */
  lemma {:induction false} WaitingTaskIsServed(s: Sched, ops: seq<Op>, x: nat)
    requires SchedOk(s) && RunEnabled(s, ops) && s.current.Some? && x < |s.ring|
    requires s.ring[x].state in {Running, Sleeping} && NeverStopped(s, ops, s.ring[x].pid)
    requires Switches(ops) >= Bound(s, x, Creates(ops))
    ensures Served(s, ops, s.ring[x].pid)
    decreases |ops|
  {
    if ops != [] {
      var op, rest := ops[0], ops[1..];
      if op.Switch? {
        assert Wants(s.ring[x], op.now);
        SwitchComesCloser(s, op.now, x, Creates(rest));
        if Step(s, op).current != Some(x) { WaitingTaskIsServed(Step(s, op), rest, x); }
      } else {
        OtherStepsKeepTask(s, op, x);
        OtherStepsKeepPlace(s, op, x);
        WaitingTaskIsServed(Step(s, op), rest, Moved(op, x));
      }
    }
  }

  // ---- who is woken

  function After(s: Sched, ops: seq<Op>): (r: Sched)
    requires SchedOk(s) && RunEnabled(s, ops)
    ensures SchedOk(r)
    decreases |ops|
  {
    if ops == [] then s else After(Step(s, ops[0]), ops[1..])
  }

  /** Where task `x` stands after all of `ops`. */
  function MovedBy(ops: seq<Op>, x: nat): nat {
    if ops == [] then x else MovedBy(ops[1..], Moved(ops[0], x))
  }

  /** Nobody readies, stops or removes task `pid`. */
  predicate LeftAlone(s: Sched, ops: seq<Op>, pid: nat)
    requires SchedOk(s) && RunEnabled(s, ops)
    decreases |ops|
  {
    ops == [] ||
    (&& (ops[0].SetState? || ops[0].Remove? ==> s.ring[ops[0].i].pid != pid)
     && LeftAlone(Step(s, ops[0]), ops[1..], pid))
  }

  predicate ClockPasses(ops: seq<Op>, limit: nat) {
    exists i :: 0 <= i < |ops| && ops[i].Switch? && ops[i].now > limit
  }

  lemma StepLeavesState(s: Sched, op: Op, x: nat)
    requires SchedOk(s) && Enabled(s, op) && x < |s.ring|
    requires op.SetState? || op.Remove? ==> s.ring[op.i].pid != s.ring[x].pid
    ensures var r, y, t := Step(s, op), Moved(op, x), s.ring[x];
            && y < |r.ring| && r.ring[y].pid == t.pid && r.ring[y].sleepLimit == t.sleepLimit
            && (r.ring[y].state == t.state
                || (t.state == Sleeping && r.ring[y].state == Running && op.Switch? && op.now > t.sleepLimit))
  {
    if op.Switch? {
      var u := Saved(s);
      WakesOnlyOverdue(u.ring, u.current, u.nullTask, op.now, x);
    }
  }

  /** Over any run a task that nobody readies, stops or removes keeps its state and its deadline, but for a sleeper
      that is made RUNNING by a switch after its deadline: a PAUSED, JOINING or ZOMBIE task never runs of itself. */
  lemma {:induction false} OnlyOverdueSleepersWake(s: Sched, ops: seq<Op>, x: nat)
    requires SchedOk(s) && RunEnabled(s, ops) && x < |s.ring| && LeftAlone(s, ops, s.ring[x].pid)
    ensures var r, y, t := After(s, ops), MovedBy(ops, x), s.ring[x];
            && y < |r.ring| && r.ring[y].pid == t.pid && r.ring[y].sleepLimit == t.sleepLimit
            && (r.ring[y].state == t.state
                || (t.state == Sleeping && r.ring[y].state == Running && ClockPasses(ops, t.sleepLimit)))
    decreases |ops|
  {
    if ops != [] {
      StepLeavesState(s, ops[0], x);
      OnlyOverdueSleepersWake(Step(s, ops[0]), ops[1..], Moved(ops[0], x));
      var limit := s.ring[x].sleepLimit;
      assert ops[0].Switch? && ops[0].now > limit ==> ClockPasses(ops, limit);
      if ClockPasses(ops[1..], limit) {
        var i :| 0 <= i < |ops[1..]| && ops[1..][i].Switch? && ops[1..][i].now > limit;
        assert ops[i + 1].Switch? && ops[i + 1].now > limit;
      }
    }
  }

  /** A task put to sleep stays asleep until the clock has passed its deadline, whatever else goes on. */
  lemma SleepsUntilItsDeadline(s: Sched, x: nat, limit: nat, ops: seq<Op>)
    requires SchedOk(s) && Enabled(s, SetState(x, Sleeping, limit))
    requires RunEnabled(Step(s, SetState(x, Sleeping, limit)), ops)
    requires LeftAlone(Step(s, SetState(x, Sleeping, limit)), ops, s.ring[x].pid) && !ClockPasses(ops, limit)
    ensures var r, y := After(Step(s, SetState(x, Sleeping, limit)), ops), MovedBy(ops, x);
            y < |r.ring| && r.ring[y].pid == s.ring[x].pid && r.ring[y].state == Sleeping
  {
    OnlyOverdueSleepersWake(Step(s, SetState(x, Sleeping, limit)), ops, x);
  }

  // ---- the creations cannot be left out of the bound

  /** A task is created, made ready, and chosen by the next switch. */
  function Round(n: nat, rest: seq<Op>): seq<Op> {
    [Create, SetState(n, Running, 0), Switch(0)] + rest
  }

  /** `k` such rounds, on a ring of `n` tasks. */
  function Flood(n: nat, k: nat): seq<Op>
    decreases k
  {
    if k == 0 then [] else Round(n, Flood(n + 1, k - 1))
  }

  function AfterRound(s: Sched): (r: Sched)
    requires SchedOk(s)
    ensures SchedOk(r)
  {
    var made := Created(s);
    Switched(Saved(StateSet(made, |s.ring|, Running, 0)), 0)
  }

  /** With the last task of the ring current, a new one is last and becomes current: the first is passed over. */
  lemma FloodRound(s: Sched)
    requires SchedOk(s) && |s.ring| >= 2 && s.current == Some(|s.ring| - 1)
    requires s.ring[0].state == Running
    ensures var r := AfterRound(s);
            && |r.ring| == |s.ring| + 1 && r.current == Some(|s.ring|) && r.ring[0].state == Running
            && r.ring[0].pid == s.ring[0].pid && !IsCurrent(r, s.ring[0].pid)
  {
    var ready := Saved(StateSet(Created(s), |s.ring|, Running, 0));
    var r, n := Switched(ready, 0), |s.ring|;
    PicksFirstRunning(ready.ring, ready.current, ready.nullTask, 0);
    assert Offset(n + 1, n, n) == 0 && Next(n + 1, n - 1) == n;
    assert PidLess(r.ring, 0, n);
  }

  lemma RoundParts(n: nat, rest: seq<Op>)
    ensures var ops := Round(n, rest);
            && ops[0] == Create && ops[1..][0] == SetState(n, Running, 0) && ops[1..][1..][0] == Switch(0)
            && ops[1..][1..][1..] == rest
            && Switches(ops) == 1 + Switches(rest) && Creates(ops) == 1 + Creates(rest)
  {
    var ops := Round(n, rest);
    assert ops[1..] == [SetState(n, Running, 0), Switch(0)] + rest;
    assert ops[1..][1..] == [Switch(0)] + rest && ops[1..][1..][1..] == rest;
    assert Switches(ops[1..]) == Switches(ops[1..][1..]) && Creates(ops[1..]) == Creates(ops[1..][1..]);
  }

  lemma {:induction false} RoundStarves(s: Sched, rest: seq<Op>)
    requires SchedOk(s) && |s.ring| >= 2 && s.current == Some(|s.ring| - 1) && s.ring[0].state == Running
    requires RunEnabled(AfterRound(s), rest) && NeverStopped(AfterRound(s), rest, s.ring[0].pid)
    requires !Served(AfterRound(s), rest, s.ring[0].pid)
    ensures var ops, pid := Round(|s.ring|, rest), s.ring[0].pid;
            RunEnabled(s, ops) && NeverStopped(s, ops, pid) && !Served(s, ops, pid)
  {
    FloodRound(s);
    RoundParts(|s.ring|, rest);
    var ops, n, pid := Round(|s.ring|, rest), |s.ring|, s.ring[0].pid;
    var made := Created(s);
    var ready := StateSet(made, n, Running, 0);
    assert PidLess(made.ring, 0, n);
    forall x | 0 <= x < |ready.ring| && ready.ring[x].pid == pid ensures Wants(ready.ring[x], 0) {
      assert PidLess(ready.ring, 0, x);
    }
    assert RunEnabled(ready, ops[1..][1..]) && NeverStopped(ready, ops[1..][1..], pid);
    assert !Served(ready, ops[1..][1..], pid);
    assert RunEnabled(made, ops[1..]) && NeverStopped(made, ops[1..], pid) && !Served(made, ops[1..], pid);
  }

  lemma {:induction false} FloodCounts(n: nat, k: nat)
    ensures Switches(Flood(n, k)) == k && Creates(Flood(n, k)) == k
    decreases k
  {
    if k > 0 {
      FloodCounts(n + 1, k - 1);
      RoundParts(n, Flood(n + 1, k - 1));
    }
  }

  /** A RUNNING task is never served while every switch is preceded by a creation, however many switches there are. */
  lemma {:induction false} CreationsStarve(s: Sched, k: nat)
    requires SchedOk(s) && |s.ring| >= 2 && s.current == Some(|s.ring| - 1) && s.ring[0].state == Running
    ensures var ops, pid := Flood(|s.ring|, k), s.ring[0].pid;
            && RunEnabled(s, ops) && NeverStopped(s, ops, pid) && !Served(s, ops, pid)
            && Switches(ops) == k && Creates(ops) == k
    decreases k
  {
    FloodCounts(|s.ring|, k);
    if k > 0 {
      var r := AfterRound(s);
      FloodRound(s);
      CreationsStarve(r, k - 1);
      RoundStarves(s, Flood(|s.ring| + 1, k - 1));
    }
  }
}
