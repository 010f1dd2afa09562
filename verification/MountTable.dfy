/** `fs_mount` with its table full: the device is linked but not recorded, so the next mount of it goes through. */
module MountTable {
  import opened Wrappers
  import opened CStrings
  import opened PathNames
  import opened Namespace
  import opened NamespaceTree
  import opened NamespaceEffects

  // ---- the first mount that is not recorded

  /** A device that is not recorded, a mount point that resolves and has a free slot, and no slot in mountinfo. */
  predicate Unrecorded(s: Fs, dev: Device, path: string) {
    && FsOk(s) && Registered(s, dev) && path != "" && s.rootdevice != null
    && FindDevice(s.mounts, dev, 0) == 16 && FindFreeDevice(s.mounts, 0) == 16
    && Traverse(s, path) != null && NodeShape(s.graph, Traverse(s, path))
    && FindFree(s.graph[Traverse(s, path)].childs, 0) < 16
  }

  lemma UnrecordedMountIs(s: Fs, dev: Device, path: string)
    requires Unrecorded(s, dev, path)
    ensures var dir := Traverse(s, path);
            Mounted(s, dev, path)
            == s.(graph := WithChild(s.graph, dir, FindFree(s.graph[dir].childs, 0), dev.rootdir))
  {
  }

  /** The directories are still a tree after it. */
  lemma UnrecordedMountKeepsTree(s: Fs, t: Tree, dev: Device, path: string) returns (u: Tree)
    requires Sound(s, t) && Unrecorded(s, dev, path)
    ensures TreeOk(Mounted(s, dev, path).graph, u)
  {
    var dir := Traverse(s, path);
    UnrecordedMountIs(s, dev, path);
    UnmountedDeviceIsOnTop(s, t, dev);
    TraverseStaysBelow(s, t, path);
    RootIsRegistered(s, t);
    var i := FindFree(s.graph[dir].childs, 0);
    LinkKeepsTree(s.graph, t, dir, i, dev.rootdir);
    u := Hung(t, dev.rootdir, dir, i, Lowered(s.graph, t, dev.rootdir, t.rank[dir]));
  }

  /** But the new slot, and no other, is a border between devices that no record stands for. */
  lemma UnrecordedMountBreaksOneBorder(s: Fs, t: Tree, dev: Device, path: string, d: Directory, j: nat)
    requires Sound(s, t) && Unrecorded(s, dev, path) && d in s.graph && j < 16
    ensures var r, dir := Mounted(s, dev, path), Traverse(s, path);
            && d in r.graph && |r.graph[d].childs| == 16
            && (BorderIsMount(r, d, j) <==> !(d == dir && j == FindFree(s.graph[dir].childs, 0)))
  {
    var r, dir := Mounted(s, dev, path), Traverse(s, path);
    UnrecordedMountIs(s, dev, path);
    assert NodeShape(s.graph, d);
    DevicesChangeAtMounts(s, t, d, j);
    TraverseStaysBelow(s, t, path);
    BelowRootIsMounted(s, t, dir, dev);
    WithChildSameDevices(s.graph, dir, FindFree(s.graph[dir].childs, 0), dev.rootdir);
    forall k | 0 <= k < 16 && s.mounts[k].Some? ensures s.mounts[k].value.dev.rootdir != dev.rootdir {
      assert MountAt(s, t, k);
    }
  }

  // ---- when a link keeps a tree

  predicate SlotHolds(g: Graph, d: Directory, j: nat, c: Directory) {
    d in g && j < |g[d].childs| && g[d].childs[j] == c
  }

  ghost predicate HangsNowhere(g: Graph, c: Directory) {
    forall d <- g, j: nat | j < 16 :: !SlotHolds(g, d, j, c)
  }

  /** d is a, or can be reached from it. */
  ghost predicate IsBelow(g: Graph, a: Directory, d: Directory)
    requires GraphOk(g) && a in g
  {
    exists slots :: Follow(g, a, slots) == d
  }

  lemma {:induction false} TopReaches(g: Graph, t: Tree, d: Directory) returns (slots: seq<nat>)
    requires GraphOk(g) && TreeOk(g, t) && d in g
    ensures Follow(g, Top(g, t, d), slots) == d
    decreases if d in t.rank && d in t.parent then 1 + t.rank[d] else 0
  {
    slots := [];
    if d in t.parent {
      assert HangsAt(g, t, d);
      var p, i := t.parent[d].dir, t.parent[d].i;
      var above := TopReaches(g, t, p);
      slots := above + [i];
      assert NodeShape(g, p) && slots[..|slots| - 1] == above;
    }
  }

  /** A way stays when a free slot is filled. */
  lemma {:induction false} WayStays(g: Graph, dir: Directory, i: nat, child: Directory, a: Directory, slots: seq<nat>)
    requires GraphOk(g) && dir in g && i < |g[dir].childs| && g[dir].childs[i] == null && a in g
    requires GraphOk(WithChild(g, dir, i, child)) && Follow(g, a, slots) != null
    ensures Follow(WithChild(g, dir, i, child), a, slots) == Follow(g, a, slots)
    decreases |slots|
  {
    if slots != [] { WayStays(g, dir, i, child, a, slots[..|slots| - 1]); }
  }

  /** Filling a free slot keeps a tree if and only if the directory hangs nowhere yet and the slot is not below it. */
  lemma LinkKeepsTreeIff(g: Graph, t: Tree, dir: Directory, i: nat, child: Directory)
    requires GraphOk(g) && TreeOk(g, t) && dir in g && child in g && i < 16 && NodeShape(g, dir)
    requires g[dir].childs[i] == null
    ensures (exists u :: TreeOk(WithChild(g, dir, i, child), u)) <==> HangsNowhere(g, child) && !IsBelow(g, child, dir)
  {
    var r := WithChild(g, dir, i, child);
    assert NodeShape(g, child);
    LinkKeepsShape(g, g, child, dir, i, child);
    if u :| TreeOk(r, u) {
      TreeHoldsOnce(g, dir, i, child, u);
      if IsBelow(g, child, dir) {
        var slots :| Follow(g, child, slots) == dir;
        WayStays(g, dir, i, child, child, slots);
        NoWayBack(r, u, child, slots, i);
        assert Follow(r, child, slots + [i]) != child;
        FollowNext(r, child, slots, i);
        assert false;
      }
    }
    if HangsNowhere(g, child) && !IsBelow(g, child, dir) {
      if child in t.parent {
        assert HangsAt(g, t, child) && SlotHolds(g, t.parent[child].dir, t.parent[child].i, child);
      }
      var slots := TopReaches(g, t, dir);
      LinkKeepsTree(g, t, dir, i, child);
    }
  }

  lemma TreeHoldsOnce(g: Graph, dir: Directory, i: nat, child: Directory, u: Tree)
    requires GraphOk(g) && dir in g && i < 16 && NodeShape(g, dir) && g[dir].childs[i] == null
    requires TreeOk(WithChild(g, dir, i, child), u)
    ensures HangsNowhere(g, child)
  {
    var r := WithChild(g, dir, i, child);
    assert HoldsAt(r, u, dir, i);
    forall d <- g, j: nat | j < 16 ensures !SlotHolds(g, d, j, child) {
      assert NodeShape(g, d) && HoldsAt(r, u, d, j);
    }
  }

  lemma FollowNext(g: Graph, a: Directory, slots: seq<nat>, i: nat)
    requires GraphOk(g) && a in g && i < 16 && Follow(g, a, slots) != null
    ensures NodeShape(g, Follow(g, a, slots)) && Follow(g, a, slots + [i]) == g[Follow(g, a, slots)].childs[i]
  {
    assert (slots + [i])[..|slots|] == slots;
  }

  /** In a tree no way leads back to where it began. */
  lemma NoWayBack(g: Graph, u: Tree, a: Directory, slots: seq<nat>, i: nat)
    requires GraphOk(g) && TreeOk(g, u) && a in g
    ensures Follow(g, a, slots + [i]) != a
  {
    FollowGoesDown(g, u, a, slots + [i]);
  }

  /** A mount of a device that is not recorded keeps a tree if and only if its root hangs nowhere yet and the mount
      point is not below it. Nothing in `fs_mount` looks at either. */
  lemma UnrecordedMountKeepsTreeIff(s: Fs, t: Tree, dev: Device, path: string)
    requires Unrecorded(s, dev, path) && TreeOk(s.graph, t)
    ensures (exists u :: TreeOk(Mounted(s, dev, path).graph, u)) <==>
            HangsNowhere(s.graph, dev.rootdir) && !IsBelow(s.graph, dev.rootdir, Traverse(s, path))
  {
    var dir := Traverse(s, path);
    UnrecordedMountIs(s, dev, path);
    LinkKeepsTreeIff(s.graph, t, dir, FindFree(s.graph[dir].childs, 0), dev.rootdir);
  }

  // ---- a full table, and the second mount

  ghost predicate RootsDiffer(devs: seq<Device>, i: nat, j: nat) {
    i < j < |devs| ==> devs[i].rootdir != devs[j].rootdir
  }

  /** Seventeen devices with roots of their own. */
  ghost predicate Devices(devs: seq<Device>) {
    |devs| == 17 && forall i, j :: 0 <= i < j < 17 ==> RootsDiffer(devs, i, j)
  }

  ghost function Roots(devs: seq<Device>): set<Directory> {
    set i | 0 <= i < |devs| :: devs[i].rootdir
  }

  ghost function NumberOf(devs: seq<Device>, d: Directory): (i: nat)
    requires d in Roots(devs)
    ensures i < |devs| && devs[i].rootdir == d
  {
    var i :| 0 <= i < |devs| && devs[i].rootdir == d;
    i
  }

  lemma NumberIs(devs: seq<Device>, i: nat)
    requires Devices(devs) && i < 17
    ensures devs[i].rootdir in Roots(devs) && NumberOf(devs, devs[i].rootdir) == i
  {
    forall j | 0 <= j < 17 && j != i ensures devs[j].rootdir != devs[i].rootdir {
      assert RootsDiffer(devs, i, j) && RootsDiffer(devs, j, i);
    }
  }

  ghost function RootSlots(devs: seq<Device>): (s: seq<Directory?>)
    requires Devices(devs)
    ensures |s| == 16
  {
    seq(16, k requires 0 <= k < 16 => if k < 15 then devs[k + 1].rootdir else null)
  }

  ghost function RootNode(devs: seq<Device>, i: nat): Node
    requires Devices(devs) && i < 17
  {
    Node(if i == 16 then "b" else "a", devs[i], if i == 0 then RootSlots(devs) else NoChilds())
  }

  /** Device 0 is the root device, devices 1 to 15 are mounted in its root directory, the table is full, and device
      16 is not mounted. */
  ghost function FullTable(devs: seq<Device>): Fs
    requires Devices(devs)
  {
    Fs(map d <- Roots(devs) :: RootNode(devs, NumberOf(devs, d)), devs[0],
       seq(16, k requires 0 <= k < 16 => Some(Mount(devs[k], "/"))))
  }

  ghost function FullTree(devs: seq<Device>): Tree
    requires Devices(devs)
  {
    Tree(map d <- Roots(devs) | 0 < NumberOf(devs, d) < 16 :: Slot(devs[0].rootdir, NumberOf(devs, d) - 1),
         map d <- Roots(devs) :: if NumberOf(devs, d) == 0 then 0 else 1)
  }

  lemma FullTableNode(devs: seq<Device>, i: nat)
    requires Devices(devs) && i < 17
    ensures devs[i].rootdir in FullTable(devs).graph && FullTable(devs).graph[devs[i].rootdir] == RootNode(devs, i)
    ensures devs[i].rootdir in FullTree(devs).parent <==> 0 < i < 16
    ensures 0 < i < 16 ==> FullTree(devs).parent[devs[i].rootdir] == Slot(devs[0].rootdir, i - 1)
    ensures devs[i].rootdir in FullTree(devs).rank && FullTree(devs).rank[devs[i].rootdir] == if i == 0 then 0 else 1
  {
    NumberIs(devs, i);
  }

  lemma FullTableNodeShape(devs: seq<Device>, i: nat)
    requires Devices(devs) && i < 17
    ensures devs[i].rootdir in FullTable(devs).graph && NodeShape(FullTable(devs).graph, devs[i].rootdir)
  {
    var g := FullTable(devs).graph;
    FullTableNode(devs, i);
    forall j | 0 <= j < 16 ensures ChildKnown(g, RootNode(devs, i).childs[j]) {
      if i == 0 && j < 15 { FullTableNode(devs, j + 1); }
    }
  }

  lemma FullTableShape(devs: seq<Device>)
    requires Devices(devs)
    ensures FsOk(FullTable(devs))
  {
    FullTableNode(devs, 0);
    forall d <- FullTable(devs).graph ensures NodeShape(FullTable(devs).graph, d) {
      FullTableNodeShape(devs, NumberOf(devs, d));
    }
  }

  lemma FullTableHolds(devs: seq<Device>, d: Directory, j: nat)
    requires Devices(devs) && d in Roots(devs) && j < 16
    ensures HoldsAt(FullTable(devs).graph, FullTree(devs), d, j)
  {
    FullTableNode(devs, NumberOf(devs, d));
    if j < 15 { FullTableNode(devs, j + 1); }
  }

  lemma FullTableIsTree(devs: seq<Device>)
    requires Devices(devs)
    ensures TreeOk(FullTable(devs).graph, FullTree(devs))
  {
    var g, t := FullTable(devs).graph, FullTree(devs);
    forall d <- g ensures RankOf(t, g, d) { FullTableNode(devs, NumberOf(devs, d)); }
    forall c <- t.parent ensures HangsAt(g, t, c) {
      FullTableNode(devs, NumberOf(devs, c));
      FullTableNode(devs, 0);
    }
    forall d <- g, j: nat | j < 16 ensures HoldsAt(g, t, d, j) { FullTableHolds(devs, d, j); }
  }

  lemma FullTableIsSound(devs: seq<Device>)
    requires Devices(devs)
    ensures Sound(FullTable(devs), FullTree(devs))
  {
    var s, t := FullTable(devs), FullTree(devs);
    FullTableShape(devs);
    FullTableIsTree(devs);
    FullTableNode(devs, 0);
    forall i | 0 <= i < 16 ensures MountAt(s, t, i) && IsMounted(s, devs[i]) {
      FullTableNode(devs, i);
      assert s.mounts[i] == Some(Mount(devs[i], "/"));
    }
    forall i, j | 0 <= i < j < 16 ensures MountsDiffer(s, i, j) {
      assert RootsDiffer(devs, i, j);
    }
    forall d <- s.graph ensures DeviceAt(s, t, d) {
      var i := NumberOf(devs, d);
      FullTableNode(devs, i);
      assert 0 < i < 16 ==> IsMounted(s, devs[i]) && RootsDiffer(devs, 0, i);
    }
  }

  /** Device 16, mounted at "/" and then at "/b": it hangs in its own root directory. Two ways lead to it, and the
      directory is below itself, so `dumpdir` does not end. */
  lemma SecondMountMakesCycle(devs: seq<Device>)
    requires Devices(devs)
    ensures var s, dev := FullTable(devs), devs[16];
            && Sound(s, FullTree(devs)) && Unrecorded(s, dev, "/") && Unrecorded(Mounted(s, dev, "/"), dev, "/b")
            && var r := Mounted(Mounted(s, dev, "/"), dev, "/b");
               && devs[0].rootdir in r.graph && dev.rootdir in r.graph
               && Follow(r.graph, dev.rootdir, [0]) == dev.rootdir
               && Follow(r.graph, devs[0].rootdir, [15]) == Follow(r.graph, devs[0].rootdir, [15, 0]) == dev.rootdir
  {
    var s, dev, root := FullTable(devs), devs[16], devs[0].rootdir;
    FullTableIsSound(devs);
    FirstMount(devs);
    var q := Mounted(s, dev, "/");
    SecondMountPoint(devs, q);
    SecondMountHangs(devs, q);
    CycleWays(Mounted(q, dev, "/b").graph, root, dev.rootdir);
  }

  lemma SecondMountHangs(devs: seq<Device>, q: Fs)
    requires Devices(devs) && Unrecorded(q, devs[16], "/b") && Traverse(q, "/b") == devs[16].rootdir
    requires q == FullTable(devs).(graph := WithChild(FullTable(devs).graph, devs[0].rootdir, 15, devs[16].rootdir))
    requires FindFree(q.graph[devs[16].rootdir].childs, 0) == 0
    ensures var g, root, d := Mounted(q, devs[16], "/b").graph, devs[0].rootdir, devs[16].rootdir;
            && GraphOk(g) && root in g && d in g && NodeShape(g, root) && NodeShape(g, d)
            && g[d].childs[0] == d && g[root].childs[15] == d
  {
    FullTableNode(devs, 0);
    FullTableNode(devs, 16);
    assert RootsDiffer(devs, 0, 16);
    UnrecordedMountIs(q, devs[16], "/b");
  }

  lemma CycleWays(g: Graph, root: Directory, d: Directory)
    requires GraphOk(g) && root in g && d in g && NodeShape(g, root) && NodeShape(g, d)
    requires g[d].childs[0] == d && g[root].childs[15] == d
    ensures Follow(g, d, [0]) == d && Follow(g, root, [15]) == d && Follow(g, root, [15, 0]) == d
  {
    assert Follow(g, d, []) == d && Follow(g, root, []) == root;
    assert [0][..0] == [] && [15][..0] == [] && [15, 0][..1] == [15];
  }

  lemma FirstMount(devs: seq<Device>)
    requires Devices(devs) && Sound(FullTable(devs), FullTree(devs))
    ensures var s, dev := FullTable(devs), devs[16];
            && Unrecorded(s, dev, "/")
            && Mounted(s, dev, "/") == s.(graph := WithChild(s.graph, devs[0].rootdir, 15, dev.rootdir))
            && devs[0].rootdir != dev.rootdir
  {
    var s, dev := FullTable(devs), devs[16];
    FullTableNode(devs, 0);
    FullTableNode(devs, 16);
    assert RootsDiffer(devs, 0, 16);
    NotRecorded(devs);
    assert forall k :: 0 <= k < 15 ==> RootSlots(devs)[k] != null;
    assert RootSlots(devs)[15] == null;
    assert FindFree(RootSlots(devs), 0) == 15;
    assert NodeShape(s.graph, devs[0].rootdir);
    UnrecordedMountIs(s, dev, "/");
  }

  lemma SecondMountPoint(devs: seq<Device>, q: Fs)
    requires Devices(devs) && FsOk(q)
    requires q == FullTable(devs).(graph := WithChild(FullTable(devs).graph, devs[0].rootdir, 15, devs[16].rootdir))
    ensures Unrecorded(q, devs[16], "/b") && Traverse(q, "/b") == devs[16].rootdir
    ensures FindFree(q.graph[devs[16].rootdir].childs, 0) == 0
  {
    var dev := devs[16];
    FullTableNode(devs, 16);
    assert RootsDiffer(devs, 0, 16);
    assert NodeShape(q.graph, dev.rootdir);
    SecondMountResolves(devs, q);
    OneName(q, "b");
    assert "/" + "b" == "/b";
    NotRecorded(devs);
  }

  lemma NotRecorded(devs: seq<Device>)
    requires Devices(devs)
    ensures FindDevice(FullTable(devs).mounts, devs[16], 0) == 16 && FindFreeDevice(FullTable(devs).mounts, 0) == 16
  {
    var mounts := FullTable(devs).mounts;
    forall i | 0 <= i < 16 ensures mounts[i].Some? && mounts[i].value.dev != devs[16] {
      assert RootsDiffer(devs, i, 16);
    }
  }

  lemma SlotHoldsA(devs: seq<Device>, g: Graph, k: nat)
    requires Devices(devs) && k < 15 && devs[0].rootdir in FullTable(devs).graph
    requires |FullTable(devs).graph[devs[0].rootdir].childs| == 16
    requires g == WithChild(FullTable(devs).graph, devs[0].rootdir, 15, devs[16].rootdir)
    ensures var c := g[devs[0].rootdir].childs[k]; c == devs[k + 1].rootdir && c in g && g[c].name == "a"
  {
    FullTableNode(devs, 0);
    FullTableNode(devs, k + 1);
    assert RootsDiffer(devs, 0, k + 1);
  }

  lemma SecondMountResolves(devs: seq<Device>, q: Fs)
    requires Devices(devs) && FsOk(q)
    requires q == FullTable(devs).(graph := WithChild(FullTable(devs).graph, devs[0].rootdir, 15, devs[16].rootdir))
    ensures Resolve(q.graph, devs[0].rootdir, ["b"]) == devs[16].rootdir
  {
    var g, root := q.graph, devs[0].rootdir;
    FullTableNode(devs, 0);
    FullTableNode(devs, 16);
    assert RootsDiffer(devs, 0, 16);
    assert NodeShape(g, root);
    var childs := g[root].childs;
    forall k | 0 <= k < 15 ensures ChildKnown(g, childs[k]) && !Matches(g, childs[k], "b") {
      SlotHoldsA(devs, g, k);
      assert "a"[..1] == "a";
    }
    assert Matches(g, childs[15], "b");
    assert LowestMatch(g, childs, "b", 0) == 15;
    assert ["b"][1..] == [];
  }

  // ---- how the full table comes about

  ghost function RootName(i: nat): string {
    if i == 16 then "b" else "a"
  }

  /** The root directories of the first `n` devices, none of them mounted. */
  ghost function Added(devs: seq<Device>, n: nat): (g: Graph)
    requires n <= |devs|
  {
    if n == 0 then map[]
    else Added(devs, n - 1)[devs[n - 1].rootdir := Node(RootName(n - 1), devs[n - 1], NoChilds())]
  }

  lemma {:induction false} AddedAt(devs: seq<Device>, n: nat, i: nat)
    requires Devices(devs) && n <= 17 && i < 17
    ensures devs[i].rootdir in Added(devs, n) <==> i < n
    ensures i < n ==> Added(devs, n)[devs[i].rootdir] == Node(RootName(i), devs[i], NoChilds())
  {
    if n > 0 {
      AddedAt(devs, n - 1, i);
      assert RootsDiffer(devs, i, n - 1) && RootsDiffer(devs, n - 1, i);
    }
  }

  lemma {:induction false} AddedRoots(devs: seq<Device>, n: nat)
    requires Devices(devs) && n <= 17
    ensures forall d <- Added(devs, n) :: d in Roots(devs) && NodeShape(Added(devs, n), d)
  {
    if n > 0 {
      AddedRoots(devs, n - 1);
      NumberIs(devs, n - 1);
    }
  }

  ghost function Filled(devs: seq<Device>, k: nat): (s: seq<Directory?>)
    requires Devices(devs)
    ensures |s| == 16
  {
    seq(16, j requires 0 <= j < 16 => if j + 1 < k then devs[j + 1].rootdir else null)
  }

  ghost function MountsUpTo(devs: seq<Device>, k: nat): (s: seq<Option<Mount>>)
    requires Devices(devs)
    ensures |s| == 16
  {
    seq(16, i requires 0 <= i < 16 => if i < k then Some(Mount(devs[i], "/")) else None)
  }

  /** All devices added, the first `k` of them mounted at "/". */
  ghost function PartTable(devs: seq<Device>, k: nat): Fs
    requires Devices(devs)
  {
    Fs(if k == 0 then Added(devs, 17) else Added(devs, 17)[devs[0].rootdir := Node("a", devs[0], Filled(devs, k))],
       if k == 0 then null else devs[0], MountsUpTo(devs, k))
  }

  lemma PartTableNode(devs: seq<Device>, k: nat, i: nat)
    requires Devices(devs) && i < 17
    ensures var g := PartTable(devs, k).graph;
            && devs[i].rootdir in g
            && g[devs[i].rootdir] == Node(RootName(i), devs[i], if i == 0 && k > 0 then Filled(devs, k) else NoChilds())
  {
    AddedAt(devs, 17, i);
    assert RootsDiffer(devs, 0, i);
  }

  lemma PartTableOk(devs: seq<Device>, k: nat)
    requires Devices(devs) && k <= 16
    ensures FsOk(PartTable(devs, k))
  {
    var g := PartTable(devs, k).graph;
    PartTableNode(devs, k, 0);
    AddedRoots(devs, 17);
    forall d <- g ensures NodeShape(g, d) {
      var i := NumberOf(devs, d);
      PartTableNode(devs, k, i);
      forall j | 0 <= j < 16 ensures ChildKnown(g, g[d].childs[j]) {
        if i == 0 && k > 0 && j + 1 < k { PartTableNode(devs, k, j + 1); }
      }
    }
  }

  lemma NextFree(devs: seq<Device>, k: nat)
    requires Devices(devs) && k < 16
    ensures var mounts := MountsUpTo(devs, k);
            && FindFreeDevice(mounts, 0) == k && FindDevice(mounts, devs[k], 0) == 16
            && mounts[k := Some(Mount(devs[k], "/"))] == MountsUpTo(devs, k + 1)
    ensures k > 0 ==>
              && FindFree(Filled(devs, k), 0) == k - 1
              && Filled(devs, k)[k - 1 := devs[k].rootdir] == Filled(devs, k + 1)
  {
    var mounts := MountsUpTo(devs, k);
    assert forall i :: 0 <= i < k ==> mounts[i].Some?;
    assert mounts[k].None?;
    forall i | 0 <= i < k ensures devs[i] != devs[k] { assert RootsDiffer(devs, i, k); }
    assert k > 0 ==> Filled(devs, k)[k - 1] == null;
    assert forall j :: 0 <= j < k - 1 ==> Filled(devs, k)[j] != null;
  }

  lemma OneMoreMounted(devs: seq<Device>, k: nat)
    requires Devices(devs) && k < 16
    ensures var s, op := PartTable(devs, k), MountAtPath(devs[k], "/");
            Enabled(s, op) && Next(s, op) == PartTable(devs, k + 1)
  {
    var s := PartTable(devs, k);
    PartTableOk(devs, k);
    PartTableNode(devs, k, 0);
    PartTableNode(devs, k, k);
    NextFree(devs, k);
    if k == 0 {
      assert Filled(devs, 1) == NoChilds();
    } else {
      assert Traverse(s, "/") == devs[0].rootdir;
    }
  }

  lemma LastTableIsFull(devs: seq<Device>)
    requires Devices(devs)
    ensures PartTable(devs, 16) == FullTable(devs)
  {
    var s, r := PartTable(devs, 16), FullTable(devs);
    assert s.mounts == r.mounts;
    assert Filled(devs, 16) == RootSlots(devs);
    AddedRoots(devs, 17);
    PartTableNode(devs, 16, 0);
    forall d | d in Roots(devs) ensures d in s.graph && d in r.graph && s.graph[d] == r.graph[d] {
      var i := NumberOf(devs, d);
      PartTableNode(devs, 16, i);
      FullTableNode(devs, i);
    }
    assert s.graph == r.graph;
  }

  /** Mounts of the devices from number `k` to 15 at "/". */
  ghost function MountAll(devs: seq<Device>, k: nat): seq<Op>
    requires Devices(devs)
    decreases 16 - k
  {
    if k >= 16 then [] else [MountAtPath(devs[k], "/")] + MountAll(devs, k + 1)
  }

  /** Registrations of the devices from number `n` on, then all mounts. */
  ghost function AddAll(devs: seq<Device>, n: nat): seq<Op>
    requires Devices(devs)
    decreases 17 - n
  {
    if n >= 17 then MountAll(devs, 0) else [NamespaceTree.AddDevice(devs[n], RootName(n))] + AddAll(devs, n + 1)
  }

  lemma {:induction false} MountAllFills(devs: seq<Device>, k: nat)
    requires Devices(devs) && k <= 16
    ensures RunEnabled(PartTable(devs, k), MountAll(devs, k))
    ensures Run(PartTable(devs, k), MountAll(devs, k)) == FullTable(devs)
    decreases 16 - k
  {
    if k == 16 {
      LastTableIsFull(devs);
    } else {
      OneMoreMounted(devs, k);
      MountAllFills(devs, k + 1);
      assert MountAll(devs, k)[1..] == MountAll(devs, k + 1);
    }
  }

  lemma {:induction false} AddAllFills(devs: seq<Device>, n: nat)
    requires Devices(devs) && n <= 17
    ensures var s := Empty().(graph := Added(devs, n));
            RunEnabled(s, AddAll(devs, n)) && Run(s, AddAll(devs, n)) == FullTable(devs)
    decreases 17 - n
  {
    var s := Empty().(graph := Added(devs, n));
    if n == 17 {
      assert s == PartTable(devs, 0);
      MountAllFills(devs, 0);
    } else {
      AddedRoots(devs, n);
      AddedAt(devs, n, n);
      AddAllFills(devs, n + 1);
      assert Next(s, AddAll(devs, n)[0]) == Empty().(graph := Added(devs, n + 1));
      assert AddAll(devs, n)[1..] == AddAll(devs, n + 1);
    }
  }

  /** The full table is what sixteen mounts at "/" make of a system with seventeen devices. */
  lemma FullTableIsReached(devs: seq<Device>)
    requires Devices(devs)
    ensures |AddAll(devs, 0)| == 33 && RunEnabled(Empty(), AddAll(devs, 0))
    ensures Run(Empty(), AddAll(devs, 0)) == FullTable(devs)
  {
    AddAllFills(devs, 0);
    assert Empty().(graph := Added(devs, 0)) == Empty();
    AddAllCount(devs, 0);
  }

  lemma {:induction false} MountAllCount(devs: seq<Device>, k: nat)
    requires Devices(devs) && k <= 16
    ensures |MountAll(devs, k)| == 16 - k
    decreases 16 - k
  {
    if k < 16 { MountAllCount(devs, k + 1); }
  }

  lemma {:induction false} AddAllCount(devs: seq<Device>, n: nat)
    requires Devices(devs) && n <= 17
    ensures |AddAll(devs, n)| == 33 - n
    decreases 17 - n
  {
    if n < 17 { AddAllCount(devs, n + 1); } else { MountAllCount(devs, 0); }
  }
}
