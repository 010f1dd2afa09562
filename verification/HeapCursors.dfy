/** One global heap cursor shared by all processes: `sys_malloc` moves it, a switch saves it into the task
    that leaves and loads it from the task that comes. Each task must see the addresses it would see alone. */
module HeapCursors {
  import opened Wrappers
  import opened Words
  import opened Scheduling

  /** PROCESS_MALLOC_START, 30 MB */
  function HeapStart(): U64 { 0x1E0_0000 }

  /** The scheduler's globals and `process_malloc_buffer`. */
  datatype Sched = Sched(ring: seq<Tcb>, current: Option<nat>, nullTask: nat, nextpid: nat, buffer: U64)

  datatype Op =
    | Malloc(len: U64)
    | Switch(now: nat)
    | SetState(i: nat, state: TaskState, limit: nat)
    | Create
    | Remove(i: nat)

  predicate PidLess(ring: seq<Tcb>, i: nat, j: nat) {
    i < j < |ring| ==> ring[i].pid < ring[j].pid
  }

  predicate PidUsed(ring: seq<Tcb>, nextpid: nat, i: nat) {
    i < |ring| ==> ring[i].pid < nextpid
  }

  /** Pids grow along the ring and have all been handed out. */
  predicate PidsGrow(ring: seq<Tcb>, nextpid: nat) {
    && (forall i, j :: 0 <= i < j < |ring| ==> PidLess(ring, i, j))
    && (forall i :: 0 <= i < |ring| ==> PidUsed(ring, nextpid, i))
  }

  lemma SamePidsGrow(ring: seq<Tcb>, r: seq<Tcb>, nextpid: nat)
    requires PidsGrow(ring, nextpid) && |r| == |ring|
    requires forall i :: 0 <= i < |r| ==> r[i].pid == ring[i].pid
    ensures PidsGrow(r, nextpid)
  {
    forall i, j | 0 <= i < j < |r| ensures PidLess(r, i, j) { assert PidLess(ring, i, j); }
    forall i | 0 <= i < |r| ensures PidUsed(r, nextpid, i) { assert PidUsed(ring, nextpid, i); }
  }

  lemma FewerPidsGrow(ring: seq<Tcb>, k: nat, nextpid: nat)
    requires PidsGrow(ring, nextpid) && k < |ring|
    ensures PidsGrow(Without(ring, k), nextpid)
  {
    var r := Without(ring, k);
    forall i, j | 0 <= i < j < |r| ensures PidLess(r, i, j) { assert PidLess(ring, Kept(k, i), Kept(k, j)); }
    forall i | 0 <= i < |r| ensures PidUsed(r, nextpid, i) { assert PidUsed(ring, nextpid, Kept(k, i)); }
  }

  lemma NextPidGrows(ring: seq<Tcb>, t: Tcb)
    requires PidsGrow(ring, t.pid)
    ensures PidsGrow(ring + [t], t.pid + 1)
  {
    var r, nextpid := ring + [t], t.pid + 1;
    forall i, j | 0 <= i < j < |r| ensures PidLess(r, i, j) {
      assert PidLess(ring, i, j) && PidUsed(ring, t.pid, i);
    }
    forall i | 0 <= i < |r| ensures PidUsed(r, nextpid, i) { assert PidUsed(ring, t.pid, i); }
  }

  /** The globals point into the ring, and a first switch would find a task to run. */
  predicate SchedOk(s: Sched) {
    NextOk(s.ring, s.current, s.nullTask) && PidsGrow(s.ring, s.nextpid)
  }

  /** Tasks are stopped, woken and removed at will, the null task included, which any task can join or kill. Only the
      current task and the null task are not removed, and before the first switch one RUNNING task must be left. */
  predicate Enabled(s: Sched, op: Op) {
    match op
    case Malloc(_) => true
    case Switch(_) => true
    case SetState(i, state, limit) =>
      i < |s.ring| && (s.current.None? ==> SomeoneRuns(WithState(s.ring, i, state, limit)))
    case Create => true
    case Remove(i) =>
      && i < |s.ring| && i != s.nullTask && Some(i) != s.current
      && (s.current.None? ==> SomeoneRuns(Without(s.ring, i)))
  }

  function WithState(ring: seq<Tcb>, i: nat, state: TaskState, limit: nat): (r: seq<Tcb>)
    requires i < |ring|
    ensures |r| == |ring| && forall j :: 0 <= j < |r| ==> r[j].pid == ring[j].pid && r[j].cursor == ring[j].cursor
  {
    ring[i := ring[i].(state := state, sleepLimit := limit)]
  }

  /** scheduler_u2k: the leaving task keeps the cursor. */
  function Saved(s: Sched): (r: Sched)
    requires SchedOk(s)
    ensures SchedOk(r)
  {
    if s.current.None? then s
    else
      var ring := s.ring[s.current.value := s.ring[s.current.value].(cursor := s.buffer)];
      SamePidsGrow(s.ring, ring, s.nextpid);
      s.(ring := ring)
  }

  /** task_next: the fall-back to the null task returns before the cursor is loaded. */
  function Switched(s: Sched, now: nat): (r: Sched)
    requires SchedOk(s)
    ensures SchedOk(r)
  {
    var c := TaskNext(s.ring, s.current, s.nullTask, now);
    SamePidsGrow(s.ring, c.ring, s.nextpid);
    s.(ring := c.ring, current := Some(c.current), buffer := if c.fellBack then s.buffer else c.ring[c.current].cursor)
  }

  /** `Switched` by the place `k` where the loop of task_next stops. */
  lemma SwitchedAt(s: Sched, now: nat, k: nat)
    requires SchedOk(s)
    requires k == StopAt(s.ring, StartOf(|s.ring|, s.current), LimitOf(|s.ring|, s.current), 0) < |s.ring|
    ensures var n, start := |s.ring|, StartOf(|s.ring|, s.current);
            var r := Switched(s, now);
            && r == s.(ring := Woken(s.ring, start, k, now), current := r.current, buffer := r.buffer)
            && (k == n - 1 && s.current.Some? ==> r.current == Some(s.nullTask) && r.buffer == s.buffer)
            && (!(k == n - 1 && s.current.Some?) ==>
                  r.current == Some(At(n, start, k)) && r.buffer == r.ring[At(n, start, k)].cursor)
  {
  }

  /** Where the i-th element left was before element `k` went. */
  function Kept(k: nat, i: nat): nat {
    if i < k then i else i + 1
  }

  function Without<T>(s: seq<T>, i: nat): (r: seq<T>)
    requires i < |s|
    ensures |r| == |s| - 1
    ensures forall j :: 0 <= j < |r| ==> r[j] == s[Kept(i, j)]
  {
    seq(|s| - 1, j requires 0 <= j < |s| - 1 => s[Kept(i, j)])
  }

  function Shifted(j: nat, i: nat): nat
    requires j != i
  {
    if j < i then j else j - 1
  }

  function Removed(s: Sched, i: nat): (r: Sched)
    requires SchedOk(s) && Enabled(s, Remove(i))
    ensures SchedOk(r)
  {
    FewerPidsGrow(s.ring, i, s.nextpid);
    s.(ring := Without(s.ring, i), nullTask := Shifted(s.nullTask, i),
       current := if s.current.None? then None else Some(Shifted(s.current.value, i)))
  }

  function Created(s: Sched): (r: Sched)
    requires SchedOk(s)
    ensures SchedOk(r)
  {
    assert forall i :: 0 <= i < |s.ring| ==> (s.ring + [Tcb(s.nextpid, Paused, 0, HeapStart())])[i] == s.ring[i];
    NextPidGrows(s.ring, Tcb(s.nextpid, Paused, 0, HeapStart()));
    s.(ring := s.ring + [Tcb(s.nextpid, Paused, 0, HeapStart())], nextpid := s.nextpid + 1)
  }

  function StateSet(s: Sched, i: nat, state: TaskState, limit: nat): (r: Sched)
    requires SchedOk(s) && Enabled(s, SetState(i, state, limit))
    ensures SchedOk(r)
  {
    var ring := WithState(s.ring, i, state, limit);
    SamePidsGrow(s.ring, ring, s.nextpid);
    s.(ring := ring)
  }

  function Step(s: Sched, op: Op): (r: Sched)
    requires SchedOk(s) && Enabled(s, op)
    ensures SchedOk(r)
  {
    match op
    case Malloc(len) => s.(buffer := Add64(s.buffer, len))
    case Switch(now) => Switched(Saved(s), now)
    case SetState(i, state, limit) => StateSet(s, i, state, limit)
    case Create => Created(s)
    case Remove(i) => Removed(s, i)
  }

  // ---- what the tasks see

  /** One `sys_malloc`: the task that called it, what it asked for and the address it got. */
  datatype Grant = Grant(pid: nat, len: U64, address: nat)

  function Grants(s: Sched, op: Op): seq<Grant>
    requires SchedOk(s)
  {
    if op.Malloc? && s.current.Some? then [Grant(s.ring[s.current.value].pid, op.len, s.buffer)] else []
  }

  predicate RunEnabled(s: Sched, ops: seq<Op>)
    requires SchedOk(s)
    decreases |ops|
  {
    ops == [] || (Enabled(s, ops[0]) && RunEnabled(Step(s, ops[0]), ops[1..]))
  }

  function GrantsOf(s: Sched, ops: seq<Op>): seq<Grant>
    requires SchedOk(s) && RunEnabled(s, ops)
    decreases |ops|
  {
    if ops == [] then [] else Grants(s, ops[0]) + GrantsOf(Step(s, ops[0]), ops[1..])
  }

  /** The lengths task `pid` asked for, in order, and the addresses it got. */
  function Asked(log: seq<Grant>, pid: nat): (lens: seq<U64>)
  {
    if log == [] then []
    else Asked(log[..|log| - 1], pid) + if log[|log| - 1].pid == pid then [log[|log| - 1].len] else []
  }

  function Received(log: seq<Grant>, pid: nat): seq<nat> {
    if log == [] then []
    else Received(log[..|log| - 1], pid) + if log[|log| - 1].pid == pid then [log[|log| - 1].address] else []
  }

  /** Where the cursor of a task that runs alone stands after these requests. */
  function End(lens: seq<U64>): U64 {
    if lens == [] then HeapStart() else Add64(End(lens[..|lens| - 1]), lens[|lens| - 1])
  }

  function Sum(lens: seq<U64>): nat {
    if lens == [] then 0 else Sum(lens[..|lens| - 1]) + lens[|lens| - 1]
  }

  /** The cursor is 30 MB plus the lengths, modulo 2^64. */
  lemma {:induction false} EndIsTheSum(lens: seq<U64>) returns (wraps: nat)
    ensures HeapStart() + Sum(lens) == End(lens) + wraps * 0x1_0000_0000_0000_0000
    ensures wraps == 0 <==> HeapStart() + Sum(lens) < 0x1_0000_0000_0000_0000
  {
    wraps := 0;
    if lens != [] {
      var last := |lens| - 1;
      wraps := EndIsTheSum(lens[..last]);
      if End(lens[..last]) + lens[last] >= 0x1_0000_0000_0000_0000 { wraps := wraps + 1; }
    }
  }

  /** What the same requests get when no other task exists. */
  function Alone(lens: seq<U64>): (r: seq<nat>)
    ensures |r| == |lens|
  {
    if lens == [] then [] else Alone(lens[..|lens| - 1]) + [End(lens[..|lens| - 1])]
  }

  lemma EndMoves(lens: seq<U64>, len: U64)
    ensures End(lens + [len]) == Add64(End(lens), len)
    ensures Alone(lens + [len]) == Alone(lens) + [End(lens)]
  {
    assert (lens + [len])[..|lens|] == lens;
  }

  /** Where task `i` would allocate next if it ran now. */
  function CursorOf(s: Sched, i: nat): nat
    requires i < |s.ring|
  {
    if s.current == Some(i) then s.buffer else s.ring[i].cursor
  }

  predicate TaskAccounted(s: Sched, log: seq<Grant>, i: nat)
    requires i < |s.ring|
  {
    CursorOf(s, i) == End(Asked(log, s.ring[i].pid))
  }

  predicate Isolated(log: seq<Grant>, pid: nat) {
    Received(log, pid) == Alone(Asked(log, pid))
  }

  /** Every task's own cursor is 30 MB plus what it asked for, and pids not handed out yet asked for nothing. The pids
      in `but` are left out of account. */
  ghost predicate Accounted(s: Sched, log: seq<Grant>, but: set<nat>) {
    && (forall i :: 0 <= i < |s.ring| && s.ring[i].pid !in but ==> TaskAccounted(s, log, i))
    && (forall p :: p >= s.nextpid ==> Asked(log, p) == [])
    && (forall p :: p !in but ==> Isolated(log, p))
  }

  lemma NewGrant(log: seq<Grant>, g: Grant, pid: nat)
    ensures Asked(log + [g], pid) == Asked(log, pid) + if g.pid == pid then [g.len] else []
    ensures Received(log + [g], pid) == Received(log, pid) + if g.pid == pid then [g.address] else []
  {
    assert (log + [g])[..|log|] == log;
  }

  /** One more grant leaves the others' accounts alone and moves the receiver's. */
  lemma GrantKeepsIsolation(log: seq<Grant>, g: Grant, pid: nat)
    requires Isolated(log, pid) && (g.pid == pid ==> g.address == End(Asked(log, pid)))
    ensures Isolated(log + [g], pid)
    ensures g.pid == pid ==> End(Asked(log + [g], pid)) == Add64(End(Asked(log, pid)), g.len)
    ensures g.pid != pid ==> Asked(log + [g], pid) == Asked(log, pid)
  {
    NewGrant(log, g, pid);
    if g.pid == pid {
      EndMoves(Asked(log, pid), g.len);
    } else {
      assert Asked(log, pid) + [] == Asked(log, pid) && Received(log, pid) + [] == Received(log, pid);
    }
  }

  lemma MallocKeepsAccounts(s: Sched, log: seq<Grant>, but: set<nat>, len: U64)
    requires SchedOk(s) && Accounted(s, log, but)
    ensures Accounted(Step(s, Malloc(len)), log + Grants(s, Malloc(len)), but)
  {
    if s.current.None? {
      var r := s.(buffer := Add64(s.buffer, len));
      assert log + Grants(s, Malloc(len)) == log;
      forall i | 0 <= i < |r.ring| && r.ring[i].pid !in but ensures TaskAccounted(r, log, i) {
        assert TaskAccounted(s, log, i);
      }
    } else {
      GrantToCurrent(s, log, but, len, s.current.value);
    }
  }

  lemma GrantAccountsFor(s: Sched, log: seq<Grant>, g: Grant, c: nat, i: nat)
    requires SchedOk(s) && s.current == Some(c) && i < |s.ring| && g.pid == s.ring[c].pid && g.address == s.buffer
    requires TaskAccounted(s, log, i) && Isolated(log, s.ring[i].pid)
    ensures TaskAccounted(s.(buffer := Add64(s.buffer, g.len)), log + [g], i)
  {
    assert PidLess(s.ring, i, c) && PidLess(s.ring, c, i);
    GrantKeepsIsolation(log, g, s.ring[i].pid);
  }

  lemma GrantToCurrent(s: Sched, log: seq<Grant>, but: set<nat>, len: U64, c: nat)
    requires SchedOk(s) && s.current == Some(c) && Accounted(s, log, but)
    ensures Accounted(s.(buffer := Add64(s.buffer, len)), log + [Grant(s.ring[c].pid, len, s.buffer)], but)
  {
    var r, g := s.(buffer := Add64(s.buffer, len)), Grant(s.ring[c].pid, len, s.buffer);
    assert PidUsed(s.ring, s.nextpid, c);
    var log' := log + [g];
    forall p | p !in but ensures Isolated(log', p) {
      assert g.pid == p ==> TaskAccounted(s, log, c);
      assert Isolated(log, p);
      GrantKeepsIsolation(log, g, p);
    }
    forall p | p >= s.nextpid ensures Asked(log', p) == [] {
      NewGrant(log, g, p);
    }
    forall i | 0 <= i < |r.ring| && r.ring[i].pid !in but ensures TaskAccounted(r, log', i) {
      assert TaskAccounted(s, log, i) && Isolated(log, s.ring[i].pid);
      GrantAccountsFor(s, log, g, c, i);
    }
  }

  /** The loop of `task_next` comes back to the current task: no other task is RUNNING. */
  predicate NobodyElseRuns(s: Sched) {
    s.current.Some? && NobodyElse(s.ring, s.current)
  }

  /** What the save half of a switch does to pids and cursors. */
  lemma SavedCursors(s: Sched)
    requires SchedOk(s)
    ensures var u := Saved(s);
            && |u.ring| == |s.ring| && (NobodyElseRuns(u) <==> NobodyElseRuns(s))
            && (forall i :: 0 <= i < |s.ring| ==> u.ring[i].pid == s.ring[i].pid && u.ring[i].cursor == CursorOf(s, i))
  {
    var u := Saved(s);
    assert forall i :: 0 <= i < |s.ring| ==> u.ring[i].state == s.ring[i].state;
  }

  /** What the choice does to them. */
  lemma SwitchedCursors(u: Sched, now: nat)
    requires SchedOk(u)
    ensures var r := Switched(u, now);
            && |r.ring| == |u.ring| && r.current.Some? && r.current.value < |r.ring|
            && (forall i :: 0 <= i < |r.ring| ==>
                  r.ring[i].pid == u.ring[i].pid && r.ring[i].cursor == u.ring[i].cursor)
            && (NobodyElseRuns(u) ==> r.current.value == u.nullTask && r.buffer == u.buffer)
            && (!NobodyElseRuns(u) ==> r.buffer == u.ring[r.current.value].cursor)
  {
    PicksFirstRunning(u.ring, u.current, u.nullTask, now);
  }

  /** The pid of the null task. */
  function NullPid(s: Sched): nat
    requires SchedOk(s)
  {
    s.ring[s.nullTask].pid
  }

  /** A switch keeps the accounts of all tasks, except when it falls back on a null task with another cursor: the
      null task, and nobody else, then goes on with the cursor of the task that left. */
  lemma SwitchKeepsAccountsIff(s: Sched, log: seq<Grant>, but: set<nat>, now: nat)
    requires SchedOk(s) && Accounted(s, log, but)
    ensures Accounted(Switched(Saved(s), now), log, but) <==>
            (NobodyElseRuns(s) && NullPid(s) !in but ==> s.buffer == CursorOf(s, s.nullTask))
  {
    var r := Switched(Saved(s), now);
    SavedCursors(s);
    SwitchedCursors(Saved(s), now);
    if NobodyElseRuns(s) && NullPid(s) !in but && s.buffer != CursorOf(s, s.nullTask) {
      assert TaskAccounted(s, log, s.nullTask) && !TaskAccounted(r, log, s.nullTask);
    } else {
      forall i | 0 <= i < |r.ring| && r.ring[i].pid !in but ensures TaskAccounted(r, log, i) {
        assert TaskAccounted(s, log, i);
      }
    }
  }

  /** The current task has allocated 16 bytes and the null task none. `state` is what the null task has been put in: a
      call of `task_join` makes it JOINING, a SIGKILL makes it ZOMBIE. */
  function StoppedNullTask(state: TaskState): Sched {
    Sched([Tcb(1, Running, 0, HeapStart()), Tcb(2, state, 0, HeapStart())], Some(0), 1, 3, Add64(HeapStart(), 16))
  }

  /** The switch falls back on the null task, which would now allocate 16 bytes above its own blocks. */
  lemma FallBackTakesTheCursorAlong(state: TaskState, now: nat)
    requires state in {Joining, Zombie}
    ensures var s, log := StoppedNullTask(state), [Grant(1, 16, HeapStart())];
            && SchedOk(s) && Accounted(s, log, {}) && !Accounted(Switched(Saved(s), now), log, {})
            && Switched(Saved(s), now).current == Some(1)
            && CursorOf(Switched(Saved(s), now), 1) == End(Asked(log, 2)) + 16
  {
    var s, log, g := StoppedNullTask(state), [Grant(1, 16, HeapStart())], Grant(1, 16, HeapStart());
    forall i, j | 0 <= i < j < 2 ensures PidLess(s.ring, i, j) { }
    forall i | 0 <= i < 2 ensures PidUsed(s.ring, 3, i) { }
    assert [] + [g] == log;
    forall p
      ensures Isolated(log, p)
      ensures p != 1 ==> Asked(log, p) == []
      ensures p == 1 ==> End(Asked(log, p)) == Add64(HeapStart(), 16)
    {
      assert Isolated([], p);
      GrantKeepsIsolation([], g, p);
    }
    forall i | 0 <= i < 2 ensures TaskAccounted(s, log, i) { }
    SavedCursors(s);
    SwitchedCursors(Saved(s), now);
    SwitchKeepsAccountsIff(s, log, {}, now);
  }

  /** With the next task RUNNING a switch goes to it and wakes nobody. */
  lemma SwitchesToNext(s: Sched, now: nat, next: nat)
    requires SchedOk(s) && |s.ring| > 1 && next == StartOf(|s.ring|, s.current) && s.ring[next].state == Running
    ensures Switched(s, now) == s.(current := Some(next), buffer := s.ring[next].cursor)
  {
    assert At(|s.ring|, next, 0) == next;
    StopIs(s.ring, next, LimitOf(|s.ring|, s.current), 0);
    SwitchedAt(s, now, 0);
    assert Woken(s.ring, next, 0, now) == s.ring;
  }

  /** It is reached from two fresh tasks in two switches, an allocation and a join or a kill. */
  lemma NullTaskCanBeStopped(state: TaskState)
    requires state in {Joining, Zombie}
    ensures var s := StoppedNullTask(Running).(current := None, buffer := HeapStart());
            && SchedOk(s) && Fresh(s)
            && var third := Step(Step(Step(s, Switch(0)), Switch(0)), Malloc(16));
               Enabled(third, SetState(1, state, 0)) && Step(third, SetState(1, state, 0)) == StoppedNullTask(state)
  {
    var s := StoppedNullTask(Running).(current := None, buffer := HeapStart());
    forall i, j | 0 <= i < j < 2 ensures PidLess(s.ring, i, j) { }
    forall i | 0 <= i < 2 ensures PidUsed(s.ring, 3, i) { }
    assert s.ring[0].state == Running;
    SwitchesToNext(s, 0, 1);
    var first := s.(current := Some(1));
    assert Step(s, Switch(0)) == first;
    assert Saved(first).ring == s.ring;
    SwitchesToNext(first, 0, 0);
    assert Step(first, Switch(0)) == s.(current := Some(0));
    assert StoppedNullTask(Running).ring[1 := Tcb(2, state, 0, HeapStart())] == StoppedNullTask(state).ring;
  }

  lemma RingChangeKeepsAccounts(s: Sched, log: seq<Grant>, but: set<nat>, op: Op)
    requires SchedOk(s) && Enabled(s, op) && Accounted(s, log, but)
    requires op.SetState? || op.Create? || op.Remove?
    ensures Accounted(Step(s, op), log, but)
  {
    var r := Step(s, op);
    forall i | 0 <= i < |r.ring| && r.ring[i].pid !in but ensures TaskAccounted(r, log, i) {
      if op.Create? && i == |s.ring| {
        assert r.ring[i] == Tcb(s.nextpid, Paused, 0, HeapStart());
      } else {
        var was := if op.Remove? && i >= op.i then i + 1 else i;
        assert TaskAccounted(s, log, was);
      }
    }
  }

  predicate NullRuns(s: Sched)
    requires SchedOk(s)
  {
    s.ring[s.nullTask].state == Running
  }

  /** Nobody puts the null task in another state. */
  predicate LeavesNullTask(s: Sched, op: Op) {
    op.SetState? && op.i == s.nullTask ==> op.state == Running
  }

  lemma NullTaskStays(s: Sched, op: Op)
    requires SchedOk(s) && Enabled(s, op)
    ensures NullPid(Step(s, op)) == NullPid(s)
    ensures NullRuns(s) && LeavesNullTask(s, op) ==> NullRuns(Step(s, op))
  {
  }

  predicate NullKeepsRunning(s: Sched, ops: seq<Op>)
    requires SchedOk(s) && RunEnabled(s, ops)
    decreases |ops|
  {
    NullRuns(s) &&
    (ops == [] || (LeavesNullTask(s, ops[0]) && NullKeepsRunning(Step(s, ops[0]), ops[1..])))
  }

  lemma StepKeepsAccounts(s: Sched, log: seq<Grant>, but: set<nat>, op: Op)
    requires SchedOk(s) && Enabled(s, op) && Accounted(s, log, but)
    requires NullPid(s) in but || NullRuns(s)
    ensures Accounted(Step(s, op), log + Grants(s, op), but)
  {
    match op
    case Malloc(len) => MallocKeepsAccounts(s, log, but, len);
    case Switch(now) =>
      assert log + Grants(s, op) == log;
      SwitchKeepsAccountsIff(s, log, but, now);
    case _ =>
      assert log + Grants(s, op) == log;
      RingChangeKeepsAccounts(s, log, but, op);
  }

  lemma {:induction false} RunKeepsAccounts(s: Sched, log: seq<Grant>, but: set<nat>, ops: seq<Op>)
    requires SchedOk(s) && RunEnabled(s, ops) && Accounted(s, log, but)
    requires NullPid(s) in but || NullKeepsRunning(s, ops)
    ensures forall p :: p !in but ==> Isolated(log + GrantsOf(s, ops), p)
    decreases |ops|
  {
    if ops == [] {
      assert log + GrantsOf(s, ops) == log;
    } else {
      StepKeepsAccounts(s, log, but, ops[0]);
      NullTaskStays(s, ops[0]);
      RunKeepsAccounts(Step(s, ops[0]), log + Grants(s, ops[0]), but, ops[1..]);
      assert log + GrantsOf(s, ops) == log + Grants(s, ops[0]) + GrantsOf(Step(s, ops[0]), ops[1..]);
    }
  }

  /** A system whose tasks have not allocated yet. */
  predicate Fresh(s: Sched) {
    s.current.None? && forall i :: 0 <= i < |s.ring| ==> s.ring[i].cursor == HeapStart()
  }

  /** Whatever mallocs, switches, changes of state, creations and removals are interleaved, every task but the null
      task gets exactly the addresses it would get running alone; so does the null task while it is left RUNNING. */
  lemma HeapsAreIsolated(s: Sched, ops: seq<Op>, pid: nat)
    requires SchedOk(s) && Fresh(s) && RunEnabled(s, ops)
    requires pid != NullPid(s) || NullKeepsRunning(s, ops)
    ensures Received(GrantsOf(s, ops), pid) == Alone(Asked(GrantsOf(s, ops), pid))
  {
    forall i | 0 <= i < |s.ring| ensures TaskAccounted(s, [], i) { assert End([]) == HeapStart(); }
    RunKeepsAccounts(s, [], if pid == NullPid(s) then {} else {NullPid(s)}, ops);
    assert [] + GrantsOf(s, ops) == GrantsOf(s, ops);
    assert Isolated(GrantsOf(s, ops), pid);
  }

  // ---- the first block

  /** A fresh task's first block begins at 30 MB, where its stack ends; while its blocks take less than 2 MB they lie
      in the region that the fault handler fills in for a heap. */
  lemma HeapBeginsAboveStack(lens: seq<U64>, k: nat)
    requires k < |lens| && Sum(lens) <= 0x20_0000
    ensures Alone(lens)[0] == 0x1E0_0000
    ensures 0x1E0_0000 <= Alone(lens)[k] && Alone(lens)[k] + lens[k] <= 0x200_0000
  {
    assert lens[..0] == [] && lens[..|lens|] == lens;
    StartMoves(lens, 0);
    StartMoves(lens, k);
    StartGrows(lens, 0, k);
    StartGrows(lens, k + 1, |lens|);
  }

  // ---- blocks of one task

  /** Every block with a byte in it ends inside the address space, and where or before a later one begins. */
  predicate InOrder(addresses: seq<nat>, lens: seq<U64>)
    requires |addresses| == |lens|
  {
    forall i, j :: 0 <= i <= j < |lens| ==> BlockInOrder(addresses, lens, i, j)
  }

  lemma {:induction false} AloneAt(lens: seq<U64>, i: nat)
    requires i < |lens|
    ensures Alone(lens)[i] == End(lens[..i])
  {
    var init := lens[..|lens| - 1];
    if i < |lens| - 1 {
      AloneAt(init, i);
      assert init[..i] == lens[..i];
    }
  }

  lemma {:induction false} SumGrows(lens: seq<U64>, i: nat)
    requires i <= |lens|
    ensures Sum(lens[..i]) <= Sum(lens)
  {
    if i < |lens| {
      var init := lens[..|lens| - 1];
      SumGrows(init, i);
      assert init[..i] == lens[..i];
    } else {
      assert lens[..i] == lens;
    }
  }

  lemma SumNext(lens: seq<U64>, i: nat)
    requires i < |lens|
    ensures Sum(lens[..i + 1]) == Sum(lens[..i]) + lens[i]
  {
    assert lens[..i + 1][..i] == lens[..i];
  }

  /** Where the k-th block would start in unbounded memory. */
  function Start(lens: seq<U64>, k: nat): nat
    requires k <= |lens|
  {
    HeapStart() + Sum(lens[..k])
  }

  lemma StartMoves(lens: seq<U64>, k: nat)
    requires k < |lens|
    ensures Start(lens, k + 1) == Start(lens, k) + lens[k]
    ensures Start(lens, k) < 0x1_0000_0000_0000_0000 ==> Alone(lens)[k] == Start(lens, k)
    ensures Start(lens, k) == 0x1_0000_0000_0000_0000 ==> Alone(lens)[k] == 0
  {
    SumNext(lens, k);
    AloneAt(lens, k);
    var wraps := EndIsTheSum(lens[..k]);
  }

  lemma StartGrows(lens: seq<U64>, i: nat, j: nat)
    requires i <= j <= |lens|
    ensures Start(lens, i) <= Start(lens, j)
  {
    SumGrows(lens[..j], i);
    assert lens[..j][..i] == lens[..i];
  }

  predicate BlockInOrder(addresses: seq<nat>, lens: seq<U64>, i: nat, j: nat)
    requires |addresses| == |lens| && i <= j < |lens|
  {
    lens[i] > 0 && lens[j] > 0 ==>
      && addresses[i] + lens[i] <= 0x1_0000_0000_0000_0000
      && (i < j ==> addresses[i] + lens[i] <= addresses[j])
  }

  /** The last block with a byte in it: those behind it are empty and move nothing. */
  lemma {:induction false} LastNonEmpty(lens: seq<U64>, k: nat) returns (i: nat)
    requires k <= |lens| && Start(lens, k) > HeapStart()
    ensures i < k && lens[i] > 0 && Start(lens, i + 1) == Start(lens, k)
  {
    i := k - 1;
    StartMoves(lens, i);
    if lens[i] == 0 { i := LastNonEmpty(lens, i); }
  }

  /** Blocks in order do not wrap: a block that wraps begins below an earlier one. */
  lemma {:induction false} NoWrapYet(lens: seq<U64>, k: nat)
    requires k <= |lens| && InOrder(Alone(lens), lens)
    ensures Start(lens, k) <= 0x1_0000_0000_0000_0000
  {
    if k > 0 {
      var j := k - 1;
      NoWrapYet(lens, j);
      StartMoves(lens, j);
      assert BlockInOrder(Alone(lens), lens, j, j);
      if Start(lens, j) == 0x1_0000_0000_0000_0000 {
        var i := LastNonEmpty(lens, j);
        StartMoves(lens, i);
        assert BlockInOrder(Alone(lens), lens, i, j);
      }
    }
  }

  lemma BlockFits(lens: seq<U64>, k: nat)
    requires k < |lens| && Start(lens, |lens|) <= 0x1_0000_0000_0000_0000 && lens[k] > 0
    ensures Alone(lens)[k] == Start(lens, k)
    ensures Start(lens, k) + lens[k] == Start(lens, k + 1) <= 0x1_0000_0000_0000_0000
  {
    StartMoves(lens, k);
    StartGrows(lens, k + 1, |lens|);
  }

  lemma FitsInOrder(lens: seq<U64>, i: nat, j: nat)
    requires i <= j < |lens| && Start(lens, |lens|) <= 0x1_0000_0000_0000_0000
    ensures BlockInOrder(Alone(lens), lens, i, j)
  {
    if lens[i] > 0 && lens[j] > 0 {
      BlockFits(lens, i);
      BlockFits(lens, j);
      if i < j { StartGrows(lens, i + 1, j); }
    }
  }

  /** The blocks of a task follow one another without overlap exactly while the total fits in 64 bits,
      whatever empty requests lie between them. */
  lemma BlocksInOrderIffTotalFits(lens: seq<U64>)
    ensures InOrder(Alone(lens), lens) <==> HeapStart() + Sum(lens) <= 0x1_0000_0000_0000_0000
  {
    assert lens[..|lens|] == lens;
    if InOrder(Alone(lens), lens) {
      NoWrapYet(lens, |lens|);
    }
    if HeapStart() + Sum(lens) <= 0x1_0000_0000_0000_0000 {
      forall i, j | 0 <= i <= j < |lens| ensures BlockInOrder(Alone(lens), lens, i, j) {
        FitsInOrder(lens, i, j);
      }
    }
  }

  /** Past 64 bits the next block can land on top of the first. */
  lemma WrappedBlocksOverlap()
    ensures var lens := [0xFFFF_FFFF_FFFF_FFFF, 16];
            && !InOrder(Alone(lens), lens)
            && Alone(lens)[1] < Alone(lens)[0] < Alone(lens)[1] + lens[1]
  {
    var lens := [0xFFFF_FFFF_FFFF_FFFF, 16];
    AloneAt(lens, 0);
    AloneAt(lens, 1);
    assert lens[..0] == [] && lens[..1] == [0xFFFF_FFFF_FFFF_FFFF];
    assert !BlockInOrder(Alone(lens), lens, 0, 0);
  }
}
