/** How much a process costs: `free_l1_table` stops before the last entry of each table, so a process that
    is created and destroyed leaves the frame stack four frames shorter. */
module LeakCount {
  import opened PhysicalMemory
  import opened PageTables
  import opened FrameOwnership
  import opened Teardown
  import opened ProcessTrees
  import opened ProcessStack
  import opened NewProcess
  import opened AddressSpace
  import opened Boot
  import opened KernelRuns

  /** Entries of a full level 1 table that the loop pushes: all but the last. */
  lemma {:induction false} FullTableVisits(ram: Ram, t: nat, p: Path, n: nat)
    requires n <= 511
    requires forall j :: 0 <= j < 512 ==> Read(ram, t, j).p && PageAddress(Read(ram, t, j).address) > FIRST_ADDRESS
    ensures |Visits(ram, t, p, 1, n)| == n
  {
    if n > 0 { FullTableVisits(ram, t, p, n - 1); }
  }

  /** A level 2 table as a new process has it: entries 11 to 14 hold full tables, 6 to 10 and 15 up nothing. */
  ghost predicate StackTables(ram: Ram, t: nat) {
    && (forall i :: 6 <= i < 512 ==> Read(ram, t, i).p == (11 <= i < 15))
    && (forall i, j :: 11 <= i < 15 && 0 <= j < 512 ==> FullEntry(ram, Read(ram, t, i).address, j))
  }

  predicate FullEntry(ram: Ram, t: nat, j: nat) {
    Read(ram, t, j).p && PageAddress(Read(ram, t, j).address) > FIRST_ADDRESS
  }

  function TablesBelow(n: nat): nat {
    if n <= 11 then 0 else if n >= 15 then 4 else n - 11
  }

  lemma {:induction false} StackTablesVisits(ram: Ram, t: nat, p: Path, n: nat)
    requires n <= 512 && StackTables(ram, t)
    ensures |Visits(ram, t, p, 2, n)| == 512 * TablesBelow(n)
  {
    if n > 6 {
      StackTablesVisits(ram, t, p, n - 1);
      var e := Read(ram, t, n - 1);
      if 11 <= n - 1 < 15 {
        forall j | 0 <= j < 512
          ensures Read(ram, e.address, j).p && PageAddress(Read(ram, e.address, j).address) > FIRST_ADDRESS
        {
          assert FullEntry(ram, e.address, j);
        }
        FullTableVisits(ram, e.address, Sub(p, n - 1), 511);
      }
    }
  }

  /** An upper table with entry 0 alone contributes what lies below it and the table it points at. */
  lemma {:induction false} SingleEntryVisits(ram: Ram, t: nat, p: Path, level: nat, n: nat)
    requires 3 <= level <= 4 && 1 <= n <= 512
    requires forall j :: 0 <= j < 512 ==> Read(ram, t, j).p == (j == 0)
    ensures |Visits(ram, t, p, level, n)| == |Visits(ram, Read(ram, t, 0).address, Sub(p, 0), level - 1, 512)| + 1
  {
    if n == 1 {
      assert Visits(ram, t, p, level, 0) == [];
    } else {
      SingleEntryVisits(ram, t, p, level, n - 1);
    }
  }

  lemma EntryOf(ram: Ram, c: nat, p: Path, t: nat, i: nat)
    requires Node(ram, c, p) == At(t)
    ensures Node(ram, c, Sub(p, i)) == if Read(ram, t, i).p then At(Read(ram, t, i).address) else Absent
  {
  }

  lemma NewProcessTables(ram: Ram, k: Kernel, own: seq<Owner>, live: set<nat>, m: Mem, m1: Mem, c: nat, l3: nat,
                         l2: nat)
    requires |own| == FRAMES && |k.shared| == 6 && TreeOk(ram, k, own, c)
    requires Created(m, k, live, c, l3, l2, m1) && m1.ram == ram
    ensures forall j :: 0 <= j < 512 ==> Read(ram, c, j).p == (j == 0)
    ensures Read(ram, c, 0).address == l3
    ensures forall j :: 0 <= j < 512 ==> Read(ram, l3, j).p == (j == 0)
    ensures Read(ram, l3, 0).address == l2
    ensures StackTables(ram, l2)
  {
    assert Depth(FIRST_L2) == 2 && Depth(Sub(Top, 0)) == 1;
    assert Node(ram, c, Top) == At(c) && Node(ram, c, Sub(Top, 0)) == At(l3) && Node(ram, c, FIRST_L2) == At(l2);
    forall j | 0 <= j < 512 ensures Read(ram, c, j).p == (j == 0) {
      EntryOf(ram, c, Top, c, j);
      assert Depth(Sub(Top, j)) == 1;
    }
    EntryOf(ram, c, Top, c, 0);
    forall j | 0 <= j < 512 ensures Read(ram, l3, j).p == (j == 0) {
      EntryOf(ram, c, Sub(Top, 0), l3, j);
      assert Depth(Sub(Sub(Top, 0), j)) == 2;
    }
    EntryOf(ram, c, Sub(Top, 0), l3, 0);
    forall i | 6 <= i < 512 ensures Read(ram, l2, i).p == (11 <= i < 15) {
      SecondLevelEntry(ram, k, live, m, m1, c, l3, l2, i);
    }
    forall i, j | 11 <= i < 15 && 0 <= j < 512 ensures FullEntry(ram, Read(ram, l2, i).address, j) {
      SecondLevelEntry(ram, k, live, m, m1, c, l3, l2, i);
      StackEntryFull(ram, k, own, live, m, m1, c, l3, l2, i, j);
    }
  }

  lemma SecondLevelEntry(ram: Ram, k: Kernel, live: set<nat>, m: Mem, m1: Mem, c: nat, l3: nat, l2: nat, i: nat)
    requires |k.shared| == 6 && Created(m, k, live, c, l3, l2, m1) && m1.ram == ram
    requires 6 <= i < 512
    ensures Read(ram, l2, i).p == (11 <= i < 15)
    ensures 11 <= i < 15 ==> Node(ram, c, Sub(FIRST_L2, i)) == At(Read(ram, l2, i).address)
  {
    assert Depth(FIRST_L2) == 2 && Node(ram, c, FIRST_L2) == At(l2);
    var q := Sub(FIRST_L2, i);
    assert Depth(q) == 3 && q != FIRST_L2;
    EntryOf(ram, c, FIRST_L2, l2, i);
    assert StackNode(q, STACK_PAGES) <==> 11 <= i < 15;
  }

  lemma StackEntryFull(ram: Ram, k: Kernel, own: seq<Owner>, live: set<nat>, m: Mem, m1: Mem, c: nat, l3: nat,
                       l2: nat, i: nat, j: nat)
    requires |own| == FRAMES && |k.shared| == 6 && TreeOk(ram, k, own, c)
    requires Created(m, k, live, c, l3, l2, m1) && m1.ram == ram
    requires 11 <= i < 15 && j < 512 && Node(ram, c, Sub(FIRST_L2, i)) == At(Read(ram, l2, i).address)
    ensures FullEntry(ram, Read(ram, l2, i).address, j)
  {
    var q := Sub(Sub(FIRST_L2, i), j);
    assert Depth(FIRST_L2) == 2 && Depth(Sub(FIRST_L2, i)) == 3 && Depth(q) == 4;
    assert StackNode(q, STACK_PAGES);
    EntryOf(ram, c, Sub(FIRST_L2, i), Read(ram, l2, i).address, j);
    StackNotKernelHalf(q);
    assert NodeFits(ram, k, own, c, q);
  }

  /** In any reachable state with room for it, a process that is created and at once destroyed takes 2055
      frames and gives 2051 back. */
  lemma CreateThenExitLosesFour(ram: Ram, events: seq<Event>, context: Context)
    requires forall i :: 0 <= i < |events| ==> Valid(events[i])
    requires Run(ram, events).Goes?
        && CreateProcess(Run(ram, events).world.mem, Run(ram, events).world.kernel, context).Got?
    ensures var w := Run(ram, events).world;
            var r := CreateProcess(w.mem, w.kernel, context);
            && |r.mem.stack| == |w.mem.stack| - 2055
            && |TreeVisits(r.mem.ram, r.at)| == 2051
            && |FreeTree(r.mem, r.at).stack| == |w.mem.stack| - 4
  {
    var own := RunKeepsInv(ram, events);
    var w := Run(ram, events).world;
    NewTreeVisits(w.mem, w.kernel, w.live, own, context);
  }

  lemma NewTreeVisits(m: Mem, k: Kernel, live: set<nat>, own: seq<Owner>, context: Context)
    requires Inv(m, k, live, own) && CreateProcess(m, k, context).Got?
    ensures var r := CreateProcess(m, k, context);
            |r.mem.stack| == |m.stack| - 2055 && |TreeVisits(r.mem.ram, r.at)| == 2051
  {
    var own', l3, l2 := CreateProcessKeepsOwnership(m, k, live, own, context);
    var r := CreateProcess(m, k, context);
    NewProcessTables(r.mem.ram, k, own', live, m, r.mem, r.at, l3, l2);
    CountVisits(r.mem.ram, r.at, l3, l2);
  }

  lemma CountVisits(ram: Ram, c: nat, l3: nat, l2: nat)
    requires forall j :: 0 <= j < 512 ==> Read(ram, c, j).p == (j == 0)
    requires Read(ram, c, 0).address == l3
    requires forall j :: 0 <= j < 512 ==> Read(ram, l3, j).p == (j == 0)
    requires Read(ram, l3, 0).address == l2 && StackTables(ram, l2)
    ensures |TreeVisits(ram, c)| == 2051
  {
    StackTablesVisits(ram, l2, FIRST_L2, 512);
    SingleEntryVisits(ram, l3, Sub(Top, 0), 3, 512);
    SingleEntryVisits(ram, c, Top, 4, 512);
  }

  /** A process is created and at once destroyed. */
  function Churn(w: World, context: Context): Outcome
    requires |w.kernel.shared| == 6
  {
    match Step(w, Create(context))
    case Halted => Halted
    case Goes(v) => Step(v, Exit(CreateProcess(w.mem, w.kernel, context).at))
  }

  lemma OneLosesFour(w: World, own: seq<Owner>, context: Context) returns (own': seq<Owner>)
    requires RunInv(w, own)
    ensures Churn(w, context).Goes? <==> |w.mem.stack| >= 2056
    ensures match Churn(w, context)
            case Halted => true
            case Goes(v) => RunInv(v, own') && |v.mem.stack| == |w.mem.stack| - 4 && v.kernel == w.kernel
  {
    var own1, l3, l2 := CreateProcessKeepsOwnership(w.mem, w.kernel, w.live, own, context);
    own' := own;
    var r := CreateProcess(w.mem, w.kernel, context);
    if r.Got? {
      NewTreeVisits(w.mem, w.kernel, w.live, own, context);
      own1 := StepKeepsInv(w, own, Create(context));
      own' := StepKeepsInv(Step(w, Create(context)).world, own1, Exit(r.at));
    }
  }

  /** One such process after another. */
  function ChurnAll(w: World, contexts: seq<Context>): (o: Outcome)
    requires |w.kernel.shared| == 6
    ensures o.Goes? ==> |o.world.kernel.shared| == 6
  {
    if contexts == [] then Goes(w)
    else
      match ChurnAll(w, contexts[..|contexts| - 1])
      case Halted => Halted
      case Goes(v) => Churn(v, contexts[|contexts| - 1])
  }

  /** `k` of them lose 4 `k` frames, and the machine gets through them exactly while 2056 frames are left for the last
      one. */
  lemma {:induction false} ChurnLosesFourEach(w: World, own: seq<Owner>, contexts: seq<Context>)
    returns (own': seq<Owner>)
    requires RunInv(w, own)
    ensures ChurnAll(w, contexts).Goes? <==> contexts == [] || |w.mem.stack| >= 2056 + 4 * (|contexts| - 1)
    ensures match ChurnAll(w, contexts)
            case Halted => true
            case Goes(v) => RunInv(v, own') && |v.mem.stack| == |w.mem.stack| - 4 * |contexts|
  {
    own' := own;
    if contexts != [] {
      var n := |contexts| - 1;
      own' := ChurnLosesFourEach(w, own, contexts[..n]);
      var before := ChurnAll(w, contexts[..n]);
      if before.Goes? { own' := OneLosesFour(before.world, own', contexts[n]); }
    }
  }

  /** From power-on 31420 processes can come and go one after the other; the next creation stops the machine. */
  lemma CreationStopsAfter(ram: Ram, contexts: seq<Context>)
    ensures Run(ram, []).Goes? && |Run(ram, []).world.kernel.shared| == 6
    ensures |Run(ram, []).world.mem.stack| == 127734
    ensures ChurnAll(Run(ram, []).world, contexts).Goes? <==> |contexts| <= 31420
  {
    BootKernelLands(ram);
    var own := RunKeepsInv(ram, []);
    var w := Run(ram, []).world;
    own := ChurnLosesFourEach(w, own, contexts);
  }
}
