/** The circular task list of the scheduler and the two globals that choose from it, as linked nodes. */
module TaskRing {
  import opened Wrappers
  import opened Words
  import opened Scheduling
  import opened HeapCursors

  /** `task_t`, the fields the scheduler uses. */
  class Task {
    var prev: Task?
    var next: Task?
    var join: Task?
    var pid: nat
    var state: TaskState
    var sleepLimit: nat
    var quantum: nat
    var stack: nat
    var mallocCurrent: U64

    constructor (pid: nat, stack: nat, mallocCurrent: U64)
      ensures this.pid == pid && this.stack == stack && this.mallocCurrent == mallocCurrent
      ensures state == Paused && sleepLimit == 0 && join == null
    {
      this.pid, this.stack, this.mallocCurrent := pid, stack, mallocCurrent;
      state, sleepLimit, quantum := Paused, 0, 0;
      prev, next, join := null, null, null;
    }
  }

  function Before(n: nat, i: nat): (j: nat)
    requires i < n
    ensures j < n
  {
    if i == 0 then n - 1 else i - 1
  }

  ghost predicate LinkedAt(ring: seq<Task>, i: nat)
    requires i < |ring|
    reads ring`next, ring`prev
  {
    ring[i].next == ring[Next(|ring|, i)] && ring[i].prev == ring[Before(|ring|, i)]
  }

  ghost predicate Differ(ring: seq<Task>, i: nat, j: nat) {
    i < j < |ring| ==> ring[i] != ring[j]
  }

  ghost predicate Distinct(ring: seq<Task>) {
    forall i, j :: 0 <= i < j < |ring| ==> Differ(ring, i, j)
  }

  /** `next` and `prev` go round the sequence in opposite directions. */
  ghost predicate IsRing(ring: seq<Task>)
    reads ring`next, ring`prev
  {
    Distinct(ring) && forall i :: 0 <= i < |ring| ==> LinkedAt(ring, i)
  }

  ghost function IndexOf(ring: seq<Task>, t: Task): (i: nat)
    requires t in ring
    ensures i < |ring| && ring[i] == t
  {
    var i :| 0 <= i < |ring| && ring[i] == t;
    i
  }

  lemma SamePlace(ring: seq<Task>, i: nat, j: nat)
    requires Distinct(ring) && i < |ring| && j < |ring| && ring[i] == ring[j]
    ensures i == j
  {
    assert Differ(ring, i, j) && Differ(ring, j, i);
  }

  lemma IndexIsUnique(ring: seq<Task>, i: nat)
    requires Distinct(ring) && i < |ring|
    ensures IndexOf(ring, ring[i]) == i
  {
    SamePlace(ring, i, IndexOf(ring, ring[i]));
  }

  lemma NotElsewhere(ring: seq<Task>, k: nat)
    requires Distinct(ring) && k < |ring|
    ensures forall i :: 0 <= i < |ring| && i != k ==> ring[i] != ring[k]
  {
    forall i | 0 <= i < |ring| && i != k ensures ring[i] != ring[k] {
      assert Differ(ring, i, k) && Differ(ring, k, i);
    }
  }

  lemma DistinctWithout(ring: seq<Task>, k: nat)
    requires Distinct(ring) && k < |ring|
    ensures Distinct(Without(ring, k))
  {
    var rest := Without(ring, k);
    forall i, j | 0 <= i < j < |rest| ensures Differ(rest, i, j) { assert Differ(ring, Kept(k, i), Kept(k, j)); }
  }

  lemma DistinctWith(ring: seq<Task>, t: Task)
    requires Distinct(ring) && t !in ring
    ensures Distinct(ring + [t])
  {
    var more := ring + [t];
    forall i, j | 0 <= i < j < |more| ensures Differ(more, i, j) { assert Differ(ring, i, j); }
  }

  lemma IndexWithout(ring: seq<Task>, k: nat, t: Task)
    requires Distinct(ring) && k < |ring| && t in ring && t != ring[k]
    ensures t in Without(ring, k) && IndexOf(Without(ring, k), t) == Shifted(IndexOf(ring, t), k)
  {
    var rest, i := Without(ring, k), Shifted(IndexOf(ring, t), k);
    DistinctWithout(ring, k);
    assert rest[i] == t;
    IndexIsUnique(rest, i);
  }

  lemma IndexWith(ring: seq<Task>, added: Task)
    requires Distinct(ring) && added !in ring
    ensures forall t :: t in ring ==> t in ring + [added] && IndexOf(ring + [added], t) == IndexOf(ring, t)
  {
    var more := ring + [added];
    DistinctWith(ring, added);
    forall t | t in ring ensures IndexOf(more, t) == IndexOf(ring, t) {
      IndexIsUnique(more, IndexOf(ring, t));
    }
  }

  ghost function TcbOf(t: Task): Tcb
    reads t`pid, t`state, t`sleepLimit, t`mallocCurrent
  {
    Tcb(t.pid, t.state, t.sleepLimit, t.mallocCurrent)
  }

  ghost function Tcbs(ring: seq<Task>): (s: seq<Tcb>)
    reads ring`pid, ring`state, ring`sleepLimit, ring`mallocCurrent
    ensures |s| == |ring|
  {
    if ring == [] then [] else Tcbs(ring[..|ring| - 1]) + [TcbOf(ring[|ring| - 1])]
  }

  lemma {:induction false} TcbsAt(ring: seq<Task>, i: nat)
    requires i < |ring|
    ensures Tcbs(ring)[i] == TcbOf(ring[i])
    decreases |ring|
  {
    if i < |ring| - 1 { TcbsAt(ring[..|ring| - 1], i); }
  }

  lemma AllTcbs(ring: seq<Task>)
    ensures forall i :: 0 <= i < |ring| ==> Tcbs(ring)[i] == TcbOf(ring[i])
  {
    forall i | 0 <= i < |ring| ensures Tcbs(ring)[i] == TcbOf(ring[i]) { TcbsAt(ring, i); }
  }

  lemma TheseAreTheTcbs(ring: seq<Task>, s: seq<Tcb>)
    requires |s| == |ring| && forall i :: 0 <= i < |ring| ==> s[i] == TcbOf(ring[i])
    ensures Tcbs(ring) == s
  {
    AllTcbs(ring);
  }

  lemma TcbsWithout(ring: seq<Task>, k: nat)
    requires k < |ring|
    ensures Tcbs(Without(ring, k)) == Without(Tcbs(ring), k)
  {
    var rest, tcbs := Tcbs(Without(ring, k)), Without(Tcbs(ring), k);
    forall i | 0 <= i < |rest| ensures rest[i] == tcbs[i] {
      TcbsAt(Without(ring, k), i);
      TcbsAt(ring, Kept(k, i));
    }
  }

  lemma TcbsWith(ring: seq<Task>, t: Task)
    ensures Tcbs(ring + [t]) == Tcbs(ring) + [TcbOf(t)]
  {
    assert (ring + [t])[..|ring|] == ring;
  }

  /** Neighbours on a ring of n once place `k` is taken out of it. */
  lemma NeighboursWithout(n: nat, k: nat, i: nat)
    requires k < n && i < n - 1
    ensures var at, nextAt, prevAt := Kept(k, i), Kept(k, Next(n - 1, i)), Kept(k, Before(n - 1, i));
            && at < n && at != k && nextAt < n && prevAt < n
            && nextAt == (if Next(n, at) == k then Next(n, k) else Next(n, at))
            && prevAt == (if Before(n, at) == k then Before(n, k) else Before(n, at))
            && (Next(n, at) == k <==> at == Before(n, k)) && (Before(n, at) == k <==> at == Next(n, k))
  {
  }

  ghost function Nexts(ring: seq<Task>): (s: seq<Task?>)
    reads ring
    ensures |s| == |ring| && forall i :: 0 <= i < |ring| ==> s[i] == ring[i].next
  {
    seq(|ring|, i requires 0 <= i < |ring| reads ring => ring[i].next)
  }

  ghost function Prevs(ring: seq<Task>): (s: seq<Task?>)
    reads ring
    ensures |s| == |ring| && forall i :: 0 <= i < |ring| ==> s[i] == ring[i].prev
  {
    seq(|ring|, i requires 0 <= i < |ring| reads ring => ring[i].prev)
  }

  predicate LinksAt(ring: seq<Task>, nexts: seq<Task?>, prevs: seq<Task?>, i: nat)
    requires i < |ring| == |nexts| == |prevs|
  {
    nexts[i] == ring[Next(|ring|, i)] && prevs[i] == ring[Before(|ring|, i)]
  }

  /** Once the neighbours of place `k` are linked to each other, the others form a ring. */
  lemma UnlinkedIsRing(ring: seq<Task>, k: nat, nexts: seq<Task?>, prevs: seq<Task?>)
    requires k < |ring| && |ring| > 1 && Distinct(ring) && |nexts| == |prevs| == |ring|
    requires forall i :: 0 <= i < |ring| ==> LinksAt(ring, nexts, prevs, i)
    requires Nexts(ring) == nexts[Before(|ring|, k) := ring[Next(|ring|, k)]]
    requires Prevs(ring) == prevs[Next(|ring|, k) := ring[Before(|ring|, k)]]
    ensures IsRing(Without(ring, k))
  {
    var rest := Without(ring, k);
    DistinctWithout(ring, k);
    forall i | 0 <= i < |rest| ensures LinkedAt(rest, i) {
      NeighboursWithout(|ring|, k, i);
      var at := Kept(k, i);
      assert LinksAt(ring, nexts, prevs, at);
      assert rest[i].next == Nexts(ring)[at] && rest[i].prev == Prevs(ring)[at];
      var next, prev := Next(|rest|, i), Before(|rest|, i);
      assert rest[next] == ring[Kept(k, next)] && rest[prev] == ring[Kept(k, prev)];
    }
  }

  class Scheduler {
    var last: Task?
    var current: Task?
    var nullTask: Task?
    var nextpid: nat
    var mallocBuffer: U64
    ghost var ring: seq<Task>

    /** The linked list is the ring, beginning after `last`, with pids growing along it. */
    ghost predicate Valid()
      reads this, ring
    {
      && IsRing(ring)
      && last == (if ring == [] then null else ring[|ring| - 1])
      && (current != null ==> current in ring)
      && (nullTask != null ==> nullTask in ring)
      && PidsGrow(Tcbs(ring), nextpid)
    }

    /** The null task exists, and a first switch would find a task to run. */
    ghost predicate Ready()
      reads this, ring
    {
      Valid() && nullTask != null && (current == null ==> SomeoneRuns(Tcbs(ring)))
    }

    ghost function View(): (s: Sched)
      requires Ready()
      reads this, ring
      ensures SchedOk(s)
    {
      Sched(Tcbs(ring), if current == null then None else Some(IndexOf(ring, current)), IndexOf(ring, nullTask),
            nextpid, mallocBuffer)
    }

    /** The list and the globals are described by `s`. */
    ghost predicate Shows(s: Sched)
      reads this, ring
    {
      && SchedOk(s) && IsRing(ring) && last == (if ring == [] then null else ring[|ring| - 1])
      && Tcbs(ring) == s.ring && nextpid == s.nextpid && mallocBuffer == s.buffer
      && (current == null <==> s.current.None?) && (current != null ==> PlacedAt(current, s.current.value))
      && nullTask != null && PlacedAt(nullTask, s.nullTask)
    }

    lemma ViewIs(s: Sched)
      requires Shows(s)
      ensures Ready() && View() == s
    {
    }

    /** The ring was `was` and described by `s` before `task` was added. */
    lemma GrewTo(s: Sched, was: seq<Task>, task: Task)
      requires SchedOk(s) && Valid() && Distinct(was) && task !in was && ring == was + [task]
      requires Tcbs(ring) == s.ring + [Tcb(s.nextpid, Paused, 0, HeapStart())]
      requires nextpid == s.nextpid + 1 && mallocBuffer == s.buffer
      requires current == null <==> s.current.None?
      requires current != null ==> current in was && s.current.value == IndexOf(was, current)
      requires nullTask != null && nullTask in was && s.nullTask == IndexOf(was, nullTask)
      ensures Ready() && View() == Created(s)
    {
      IndexWith(was, task);
      ViewIs(Created(s));
    }

    ghost predicate PlacedAt(t: Task, i: nat)
      reads this`ring
    {
      t in ring && IndexOf(ring, t) == i
    }

    constructor ()
      ensures Valid() && ring == [] && nextpid == 1 && current == null && nullTask == null
    {
      last, current, nullTask := null, null, null;
      nextpid, mallocBuffer, ring := 1, 0, [];
    }

    method GetNewPid() returns (pid: nat)
      modifies this`nextpid
      ensures pid == old(nextpid) && nextpid == pid + 1
    {
      pid := nextpid;
      nextpid := nextpid + 1;
    }

    /** `task_add`: the new task goes in after the last one and becomes the last. */
    method TaskAdd(task: Task)
      requires IsRing(ring) && last == (if ring == [] then null else ring[|ring| - 1]) && task !in ring
      modifies this`last, this`ring, task`next, task`prev, ring`next, ring`prev
      ensures ring == old(ring) + [task]
      ensures IsRing(ring) && last == task
    {
      ghost var was := ring;
      DistinctWith(was, task);
      if last == null {
        task.next := task;
        task.prev := task;
        last := task;
      } else {
        NotElsewhere(was, |was| - 1);
        NotElsewhere(was, 0);
        assert LinkedAt(was, |was| - 1) && LinkedAt(was, 0);
        task.next := last.next;
        last.next := task;
        task.prev := last;
        task.next.prev := task;
        last := task;
      }
      ring := was + [task];
      forall i | 0 <= i < |ring| ensures LinkedAt(ring, i) {
        if i < |was| { assert old(LinkedAt(ring, i)); }
      }
    }

    /** The unlinking of `task_remove`. A ring of one stays as it is: its task remains `last`. */
    method Unlink(task: Task)
      requires IsRing(ring) && task in ring && last == ring[|ring| - 1]
      modifies this`last, this`ring, ring`next, ring`prev
      ensures ring == if |old(ring)| == 1 then old(ring) else Without(old(ring), IndexOf(old(ring), task))
      ensures IsRing(ring) && ring != [] && last == ring[|ring| - 1]
      ensures task.next == old(task.next) && task.prev == old(task.prev)
    {
      ghost var k, n := IndexOf(ring, task), |ring|;
      ghost var before, after := Before(n, k), Next(n, k);
      ghost var nexts, prevs := Nexts(ring), Prevs(ring);
      forall i | 0 <= i < n ensures LinksAt(ring, nexts, prevs, i) {
        assert LinkedAt(ring, i);
      }
      assert LinksAt(ring, nexts, prevs, k);
      NotElsewhere(ring, before);
      NotElsewhere(ring, after);
      NotElsewhere(ring, k);
      var prev := task.prev;
      var next := task.next;
      prev.next := next;
      next.prev := prev;
      if task == last {
        last := prev;
      }
      if n > 1 {
        assert Nexts(ring) == nexts[before := ring[after]];
        assert Prevs(ring) == prevs[after := ring[before]];
        UnlinkedIsRing(ring, k, nexts, prevs);
        ring := Without(ring, k);
      } else {
        assert old(LinkedAt(ring, 0));
        forall i | 0 <= i < |ring| ensures LinkedAt(ring, i) { }
      }
    }

    /** `task_create`, without the address space: `stack` is what `alloc_new_process_stack` returned. */
    method TaskCreate(stack: nat) returns (task: Task)
      requires Valid()
      modifies this`last, this`ring, this`nextpid, ring`next, ring`prev
      ensures fresh(task) && task.stack == stack && task.join == null
      ensures Valid() && ring == old(ring) + [task] && nextpid == old(nextpid) + 1
      ensures Tcbs(ring) == old(Tcbs(ring)) + [Tcb(old(nextpid), Paused, 0, HeapStart())]
    {
      ghost var was, tcbs := ring, Tcbs(ring);
      var pid := GetNewPid();
      task := new Task(pid, stack, HeapStart());
      TaskAdd(task);
      TcbsWith(was, task);
      NextPidGrows(tcbs, TcbOf(task));
    }

    /** The system call around `task_create`. */
    method SysTaskCreate(stack: nat) returns (task: Task)
      requires Ready()
      modifies this`last, this`ring, this`nextpid, ring`next, ring`prev
      ensures fresh(task) && task.stack == stack && task.join == null
      ensures Ready() && ring == old(ring) + [task] && View() == Step(old(View()), Create)
    {
      ghost var was, s := ring, View();
      task := TaskCreate(stack);
      GrewTo(s, was, task);
    }

    method TaskReady(task: Task)
      requires Valid() && task in ring
      modifies task`state
      ensures Valid() && task.state == Running
      ensures Tcbs(ring) == WithState(old(Tcbs(ring)), IndexOf(ring, task), Running, task.sleepLimit)
      ensures old(Ready()) ==> Ready() && View() == Readied(old(View()), IndexOf(ring, task))
    {
      ghost var was, k := Tcbs(ring), IndexOf(ring, task);
      AllTcbs(ring);
      NotElsewhere(ring, k);
      task.state := Running;
      TheseAreTheTcbs(ring, WithState(was, k, Running, task.sleepLimit));
      assert Tcbs(ring)[k].state == Running;
      SamePidsGrow(was, Tcbs(ring), nextpid);
    }

    /** Putting `task` in `state` leaves the system able to make its first switch, if that is still to come. */
    ghost predicate MayStop(task: Task, state: TaskState, limit: nat)
      requires Ready() && task in ring
      reads this, ring
    {
      Enabled(View(), SetState(IndexOf(ring, task), state, limit))
    }

    /** The first half of `task_pause`, up to its `reschedule`. */
    method TaskPause(task: Task)
      requires Ready() && task in ring && MayStop(task, Paused, task.sleepLimit)
      modifies task`state
      ensures Ready() && View() == Step(old(View()), SetState(IndexOf(ring, task), Paused, task.sleepLimit))
    {
      ghost var s, k := View(), IndexOf(ring, task);
      AllTcbs(ring);
      NotElsewhere(ring, k);
      task.state := Paused;
      TheseAreTheTcbs(ring, WithState(s.ring, k, Paused, task.sleepLimit));
      ViewIs(Step(s, SetState(k, Paused, task.sleepLimit)));
    }

    /** The first half of `task_join`: `other` waits for `task`. Neither is checked to be another than the null task. */
    method TaskJoin(task: Task, other: Task)
      requires Ready() && task in ring && other in ring && MayStop(other, Joining, other.sleepLimit)
      modifies task`join, other`state
      ensures Ready() && task.join == other
      ensures View() == Step(old(View()), SetState(IndexOf(ring, other), Joining, other.sleepLimit))
    {
      ghost var s, k := View(), IndexOf(ring, other);
      AllTcbs(ring);
      NotElsewhere(ring, k);
      task.join := other;
      other.state := Joining;
      TheseAreTheTcbs(ring, WithState(s.ring, k, Joining, other.sleepLimit));
      ViewIs(Step(s, SetState(k, Joining, other.sleepLimit)));
    }

    /** The system once the task that waited in `task_join` for `task` has been made RUNNING. */
    ghost function Joined(task: Task): (s: Sched)
      requires Ready() && (task.join != null ==> task.join in ring)
      reads this, ring, task`join
      ensures SchedOk(s)
    {
      if task.join == null then View() else Readied(View(), IndexOf(ring, task.join))
    }

    method WakeJoiner(ghost s: Sched, task: Task)
      requires Ready() && (task.join != null ==> task.join in ring) && Joined(task) == s
      modifies ring`state, task`join
      ensures Ready() && View() == s && task.join == null
    {
      if task.join != null {
        TaskReady(task.join);
        task.join := null;
      }
    }

    /** `task_schedule_removal`: the task is a ZOMBIE, and a task that waited for it is RUNNING. */
    method TaskScheduleRemoval(task: Task)
      requires Ready() && task in ring && MayStop(task, Zombie, task.sleepLimit)
      requires task.join != null ==> task.join in ring
      modifies ring`state, task`join
      ensures Ready() && task.join == null
      ensures var dead := Step(old(View()), SetState(IndexOf(ring, task), Zombie, task.sleepLimit));
              View() == if old(task.join) == null then dead else Readied(dead, IndexOf(ring, old(task.join)))
    {
      ghost var s, k := View(), IndexOf(ring, task);
      AllTcbs(ring);
      NotElsewhere(ring, k);
      task.state := Zombie;
      TheseAreTheTcbs(ring, WithState(s.ring, k, Zombie, task.sleepLimit));
      ViewIs(Step(s, SetState(k, Zombie, task.sleepLimit)));
      WakeJoiner(Joined(task), task);
    }

    /** `task_sleep` up to its `reschedule`. */
    method TaskSleep(task: Task, ms: U64, now: U64)
      requires Ready() && task in ring && MayStop(task, Sleeping, Add64(now, ms))
      modifies task`state, task`sleepLimit
      ensures Ready() && View() == Step(old(View()), SetState(IndexOf(ring, task), Sleeping, Add64(now, ms)))
    {
      ghost var s, k := View(), IndexOf(ring, task);
      AllTcbs(ring);
      NotElsewhere(ring, k);
      task.state := Sleeping;
      task.sleepLimit := Add64(now, ms);
      TheseAreTheTcbs(ring, WithState(s.ring, k, Sleeping, Add64(now, ms)));
      ViewIs(Step(s, SetState(k, Sleeping, Add64(now, ms))));
    }

    ghost predicate NewlyReady(i: nat)
      requires i < |ring|
      reads this`ring, ring
    {
      ring[i].state == Running && ring[i].mallocCurrent == HeapStart()
    }

    /** `task_init`: a shell per virtual console and, last, the null task, all RUNNING. */
    method TaskInit(stacks: seq<nat>)
      requires Valid() && ring == [] && current == null && |stacks| == 8
      modifies this
      ensures Ready() && Fresh(View()) && NullRuns(View()) && |ring| == 8 && nullTask == ring[7]
      ensures forall i :: 0 <= i < |ring| ==> NewlyReady(i) && fresh(ring[i])
    {
      nullTask := null;
      for i := 0 to 7
        invariant Valid() && |ring| == i && current == null && nullTask == null
        invariant forall j :: 0 <= j < |ring| ==> NewlyReady(j) && fresh(ring[j])
      {
        var shell := CreateReady(stacks[i]);
      }
      var task := CreateReady(stacks[7]);
      nullTask := task;
      StartsFresh();
    }

    lemma StartsFresh()
      requires Valid() && |ring| == 8 && current == null && nullTask == ring[7]
      requires forall i :: 0 <= i < |ring| ==> NewlyReady(i)
      ensures Ready() && Fresh(View()) && NullRuns(View())
    {
      AllTcbs(ring);
      IndexIsUnique(ring, 7);
      assert NewlyReady(7) && Tcbs(ring)[7].state == Running;
      forall i | 0 <= i < |ring| ensures View().ring[i].cursor == HeapStart() {
        assert NewlyReady(i);
      }
    }

    /** `task_create` and `task_ready`. */
    method CreateReady(stack: nat) returns (task: Task)
      requires Valid()
      modifies this`last, this`ring, this`nextpid, ring`next, ring`prev
      ensures fresh(task) && Valid() && ring == old(ring) + [task] && NewlyReady(|ring| - 1)
    {
      task := TaskCreate(stack);
      TcbsAt(ring, |ring| - 1);
      TaskReady(task);
    }

    /** The ring was `was` and described by `s` before the task at place k was taken out. */
    lemma ShrunkTo(s: Sched, was: seq<Task>, k: nat)
      requires SchedOk(s) && Distinct(was) && k < |was| && ring == Without(was, k)
      requires IsRing(ring) && ring != [] && last == ring[|ring| - 1]
      requires Tcbs(was) == s.ring && nextpid == s.nextpid && mallocBuffer == s.buffer
      requires current == null <==> s.current.None?
      requires current != null ==> current in was && s.current.value == IndexOf(was, current) && current != was[k]
      requires nullTask != null && nullTask in was && s.nullTask == IndexOf(was, nullTask) && nullTask != was[k]
      requires Enabled(s, Remove(k))
      ensures Ready() && View() == Removed(s, k)
    {
      TcbsWithout(was, k);
      if current != null { IndexWithout(was, k, current); }
      IndexWithout(was, k, nullTask);
      ViewIs(Removed(s, k));
    }

    /** The task at place `k` of the ring `was` has left a system that was `s`. A ring of one stays as it is. Unless it
        is the current task or the null task that left, this is the removal step. */
    ghost predicate Left(s: Sched, was: seq<Task>, k: nat)
      requires SchedOk(s) && k < |was| == |s.ring|
      reads this, ring
    {
      && IsRing(ring) && ring != [] && last == ring[|ring| - 1]
      && ring == (if |was| == 1 then was else Without(was, k))
      && Tcbs(ring) == (if |was| == 1 then s.ring else Without(s.ring, k))
      && (Removable(was[k]) ==> Enabled(s, Remove(k)) && Ready() && View() == Step(s, Remove(k)))
    }

    /** `task_remove`, without freeing memory. The task that goes keeps its links, so when it is the current one its
        next switch starts at the neighbour it had; one that removes the null task leaves `null_task` astray. */
    method TaskRemove(task: Task)
      requires Ready() && task in ring
      requires task.join != null ==> task.join in ring
      modifies this`last, this`ring, ring`next, ring`prev, ring`state, task`join
      ensures task.join == null && task.next == old(task.next) && task.prev == old(task.prev)
      ensures Left(old(Joined(task)), old(ring), old(IndexOf(ring, task)))
    {
      ghost var s, k := Joined(task), IndexOf(ring, task);
      WakeJoiner(s, task);
      Detach(s, k, task);
    }

    /** The part of `task_remove` that takes the task at place `k` of the system `s` out of the ring. */
    method Detach(ghost s: Sched, ghost k: nat, task: Task)
      requires Ready() && View() == s && k < |ring| && ring[k] == task
      modifies this`last, this`ring, ring`next, ring`prev
      ensures task.next == old(task.next) && task.prev == old(task.prev)
      ensures Left(s, old(ring), k)
    {
      ghost var was := ring;
      IndexIsUnique(was, k);
      Unlink(task);
      HasLeft(s, was, k);
    }

    lemma HasLeft(s: Sched, was: seq<Task>, k: nat)
      requires SchedOk(s) && Distinct(was) && k < |was| && Tcbs(was) == s.ring
      requires IsRing(ring) && ring != [] && last == ring[|ring| - 1]
      requires ring == if |was| == 1 then was else Without(was, k)
      requires nextpid == s.nextpid && mallocBuffer == s.buffer
      requires current == null <==> s.current.None?
      requires current != null ==> current in was && s.current.value == IndexOf(was, current)
      requires nullTask != null && nullTask in was && s.nullTask == IndexOf(was, nullTask)
      ensures Left(s, was, k)
    {
      if |was| > 1 { TcbsWithout(was, k); }
      if Removable(was[k]) {
        OtherTaskGoes(s, was, k);
        ShrunkTo(s, was, k);
      }
    }

    /** Neither the current task nor the null task, and some task has run. */
    ghost predicate Removable(task: Task)
      reads this
    {
      current != null && task != current && task != nullTask
    }

    lemma OtherTaskGoes(s: Sched, was: seq<Task>, k: nat)
      requires SchedOk(s) && k < |was| && |s.ring| == |was| && Removable(was[k])
      requires current in was && s.current == Some(IndexOf(was, current))
      requires nullTask != null && nullTask in was && s.nullTask == IndexOf(was, nullTask)
      ensures Enabled(s, Remove(k)) && |was| > 1
    {
    }

    /** `update_task_state` */
    method UpdateTaskState(task: Task, now: nat)
      requires IsRing(ring) && task in ring
      modifies task`state
      ensures IsRing(ring)
      ensures var i, was := IndexOf(ring, task), old(Tcbs(ring)); Tcbs(ring) == was[i := Wake(was[i], now)]
    {
      ghost var was, k := Tcbs(ring), IndexOf(ring, task);
      AllTcbs(ring);
      NotElsewhere(ring, k);
      if task.state == Sleeping {
        if now > task.sleepLimit {
          task.state := Running;
        }
      }
      TheseAreTheTcbs(ring, was[k := Wake(was[k], now)]);
    }

    /** The loop of `task_next` has passed `k` tasks and looks at `task`. */
    ghost predicate Seeking(s: Sched, task: Task, k: nat, now: nat)
      requires SchedOk(s)
      reads this, ring
    {
      && IsRing(ring) && |ring| == |s.ring| && k <= LimitOf(|ring|, s.current) && k < |ring|
      && (current == null <==> s.current.None?) && (current != null ==> PlacedAt(current, s.current.value))
      && task == ring[At(|ring|, StartOf(|ring|, s.current), k)]
      && Tcbs(ring) == Woken(s.ring, StartOf(|ring|, s.current), k, now)
      && forall j :: 0 <= j < k ==> NotRunning(s.ring, StartOf(|ring|, s.current), j)
    }

    /** The loop can pass a task that is neither RUNNING nor the current one. */
    lemma Passing(s: Sched, task: Task, k: nat, now: nat)
      requires SchedOk(s) && Seeking(s, task, k, now) && task.state != Running && task != current
      ensures k + 1 <= LimitOf(|ring|, s.current) && k + 1 < |ring| && task in ring
      ensures NotRunning(s.ring, StartOf(|ring|, s.current), k)
      ensures task.next == ring[At(|ring|, StartOf(|ring|, s.current), k + 1)]
      ensures var i, tcbs := IndexOf(ring, task), Tcbs(ring);
              Woken(s.ring, StartOf(|ring|, s.current), k + 1, now) == tcbs[i := Wake(tcbs[i], now)]
    {
      var n, start := |ring|, StartOf(|ring|, s.current);
      var at := At(n, start, k);
      WokenMore(s.ring, start, k, now);
      TcbsAt(ring, at);
      IndexIsUnique(ring, at);
      LoopGoesOn(s.ring, s.current, s.nullTask, k);
      assert LinkedAt(ring, at);
    }

    /** The body of the loop. */
    method Pass(ghost s: Sched, task: Task, ghost k: nat, now: nat) returns (next: Task)
      requires SchedOk(s) && Seeking(s, task, k, now) && task.state != Running && task != current
      modifies ring`state
      ensures k + 1 < |ring| && Seeking(s, next, k + 1, now)
    {
      Passing(s, task, k, now);
      UpdateTaskState(task, now);
      next := task.next;
    }

    lemma SeekEnds(s: Sched, task: Task, k: nat, now: nat)
      requires SchedOk(s) && Seeking(s, task, k, now)
      requires task.state == Running || task == current
      ensures k == StopAt(s.ring, StartOf(|ring|, s.current), LimitOf(|ring|, s.current), 0)
      ensures task == current <==> current != null && k == |ring| - 1
    {
      var n, start := |ring|, StartOf(|ring|, s.current);
      WokenMore(s.ring, start, k, now);
      TcbsAt(ring, At(n, start, k));
      IndexIsUnique(ring, At(n, start, k));
      if current != null { AtCurrent(n, s.current.value, k); }
      assert task == current <==> s.current == Some(At(n, start, k));
      StopIs(s.ring, start, LimitOf(n, s.current), k);
    }

    lemma SeekStarts(s: Sched, now: nat)
      requires Shows(s)
      ensures current != null ==> current.next != null && Seeking(s, current.next, 0, now)
      ensures current == null ==> last != null && Seeking(s, last, 0, now)
    {
      assert Woken(s.ring, StartOf(|ring|, s.current), 0, now) == s.ring;
      if current != null { assert LinkedAt(ring, s.current.value); }
    }

    /** The loop of `task_next`: it stops at a RUNNING task or at the current one. */
    method Seek(ghost s: Sched, now: nat) returns (task: Task, ghost k: nat)
      requires Shows(s)
      modifies ring`state
      ensures Seeking(s, task, k, now) && (task.state == Running || task == current)
    {
      SeekStarts(s, now);
      k := 0;
      task := if current == null then last else current.next;
      while task.state != Running && task != current
        invariant Seeking(s, task, k, now)
        decreases |ring| - k
      {
        task := Pass(s, task, k, now);
        k := k + 1;
      }
    }

    /** What the loop found is what `Switched` chooses. */
    lemma Chosen(s: Sched, task: Task, k: nat, now: nat)
      requires SchedOk(s) && Seeking(s, task, k, now) && (task.state == Running || task == current)
      ensures var r := Switched(s, now);
              && r == s.(ring := Tcbs(ring), current := r.current, buffer := r.buffer) && task in ring
              && (task == current ==> r.current == Some(s.nullTask) && r.buffer == s.buffer)
              && (task != current ==> r.current == Some(IndexOf(ring, task)) && r.buffer == task.mallocCurrent)
    {
      var at := At(|ring|, StartOf(|ring|, s.current), k);
      SeekEnds(s, task, k, now);
      SwitchedAt(s, now, k);
      TcbsAt(ring, at);
      IndexIsUnique(ring, at);
    }

    /** The end of `task_next`: `task` becomes the current one, unless the loop came back to it. */
    method MakeCurrent(task: Task, ghost r: Sched)
      requires SchedOk(r) && IsRing(ring) && task in ring && last == ring[|ring| - 1]
      requires Tcbs(ring) == r.ring && nextpid == r.nextpid && nullTask != null && PlacedAt(nullTask, r.nullTask)
      requires task == current ==> r.current == Some(r.nullTask) && r.buffer == mallocBuffer
      requires task != current ==> r.current == Some(IndexOf(ring, task)) && r.buffer == task.mallocCurrent
      modifies this`current, this`mallocBuffer
      ensures Shows(r)
    {
      if task == current {
        current := nullTask;
      } else {
        current := task;
        mallocBuffer := task.mallocCurrent;
      }
    }

    /** `task_next` */
    method TaskNext(now: nat)
      requires Ready()
      modifies this`current, this`mallocBuffer, ring`state
      ensures Ready() && View() == Switched(old(View()), now)
    {
      ghost var s := View();
      ghost var r := Switched(s, now);
      var task, k := Seek(s, now);
      Chosen(s, task, k, now);
      MakeCurrent(task, r);
      ViewIs(r);
    }

    /** `scheduler_u2k`: the current task keeps its stack pointer and the heap cursor. */
    method SchedulerU2K(rsp: nat)
      requires Ready()
      modifies ring`stack, ring`mallocCurrent
      ensures Ready() && View() == Saved(old(View()))
      ensures forall t :: t in ring ==> t.stack == if t == current then rsp else old(t.stack)
    {
      ghost var s := View();
      if current != null {
        ghost var k := s.current.value;
        AllTcbs(ring);
        NotElsewhere(ring, k);
        current.stack := rsp;
        current.mallocCurrent := mallocBuffer;
        TheseAreTheTcbs(ring, Saved(s).ring);
      }
      ViewIs(Saved(s));
    }

    /** `scheduler_k2u`: the current task gets a new quantum, and its stack pointer is the one to return to. */
    method SchedulerK2U() returns (rsp: nat)
      requires Ready() && current != null
      modifies ring`quantum
      ensures rsp == current.stack && current.quantum == 5
      ensures Ready() && View() == old(View())
    {
      ghost var s := View();
      current.quantum := 5;
      rsp := current.stack;
      ViewIs(s);
    }

    /** One switch: save, choose, restore. The task that comes resumes where it left. */
    method Reschedule(rsp: nat, now: nat) returns (resumed: nat)
      requires Ready()
      modifies this`current, this`mallocBuffer, ring`state, ring`stack, ring`mallocCurrent, ring`quantum
      ensures Ready() && View() == Step(old(View()), Switch(now))
      ensures current != null && resumed == current.stack
      ensures forall t :: t in ring ==> t.stack == if t == old(current) then rsp else old(t.stack)
    {
      SchedulerU2K(rsp);
      TaskNext(now);
      resumed := SchedulerK2U();
    }

    /** `sys_malloc` */
    method SysMalloc(len: U64) returns (address: U64)
      requires Ready()
      modifies this`mallocBuffer
      ensures Ready() && View() == Step(old(View()), Malloc(len))
      ensures current != null ==> Grants(old(View()), Malloc(len)) == [Grant(current.pid, len, address)]
    {
      address := mallocBuffer;
      mallocBuffer := Add64(mallocBuffer, len);
      if current != null { TcbsAt(ring, IndexOf(ring, current)); }
    }

    /** `task_find_by_pid`: pids are distinct, so the match is the only one. */
    method TaskFindByPid(pid: nat) returns (task: Task?)
      requires Valid() && ring != []
      ensures task != null ==> task in ring && task.pid == pid
      ensures task == null <==> forall t :: t in ring ==> t.pid != pid
      ensures forall t :: t in ring && t.pid == pid ==> t == task
    {
      ghost var i := 0;
      assert LinkedAt(ring, |ring| - 1);
      task := last.next;
      while task.pid != pid && task != last
        invariant 0 <= i < |ring| && task == ring[i]
        invariant forall j :: 0 <= j < i ==> ring[j].pid != pid
        decreases |ring| - i
      {
        assert LinkedAt(ring, i);
        task := task.next;
        i := i + 1;
      }
      if task.pid == pid { PidsDiffer(i); }
      if task == last && task.pid != pid {
        SamePlace(ring, i, |ring| - 1);
        return null;
      }
    }

    lemma PidsDiffer(i: nat)
      requires Valid() && i < |ring|
      ensures forall t :: t in ring && t.pid == ring[i].pid ==> t == ring[i]
    {
      AllTcbs(ring);
      forall t | t in ring && t.pid == ring[i].pid ensures t == ring[i] {
        var j := IndexOf(ring, t);
        assert PidLess(Tcbs(ring), i, j) && PidLess(Tcbs(ring), j, i);
      }
    }

    /** `task_foreach`, with the tasks `func` was called on as its effect: all of them, in ring order. */
    method TaskForeach() returns (visited: seq<Task>)
      requires Valid() && ring != []
      ensures visited == ring
    {
      assert LinkedAt(ring, |ring| - 1);
      var task := last.next;
      visited := [task];
      assert LinkedAt(ring, 0);
      task := task.next;
      while task != last.next
        invariant 1 <= |visited| <= |ring| && visited == ring[..|visited|]
        invariant task == ring[if |visited| == |ring| then 0 else |visited|]
        decreases |ring| - |visited|
      {
        assert LinkedAt(ring, |visited|);
        visited := visited + [task];
        task := task.next;
      }
      SamePlace(ring, if |visited| == |ring| then 0 else |visited|, 0);
    }
  }

  /** `task_ready` */
  function Readied(s: Sched, i: nat): (r: Sched)
    requires SchedOk(s) && i < |s.ring|
    ensures SchedOk(r)
    ensures var op := SetState(i, Running, s.ring[i].sleepLimit); Enabled(s, op) && r == Step(s, op)
  {
    var ring := WithState(s.ring, i, Running, s.ring[i].sleepLimit);
    assert ring[i].state == Running;
    StateSet(s, i, Running, s.ring[i].sleepLimit)
  }
}
