/** Over every run of mkdir, mount and unmount the directories form trees whose borders between devices are
    exactly the mount points. */
module NamespaceTree {
  import opened Wrappers
  import opened CStrings
  import opened PathNames
  import opened Namespace

  // ---- the tree behind the graph

  datatype Slot = Slot(dir: Directory, i: nat)

  /** The one slot a directory hangs in, if any, and a number that grows downwards. */
  datatype Tree = Tree(parent: map<Directory, Slot>, rank: map<Directory, nat>)

  predicate RankOf(t: Tree, g: Graph, d: Directory) {
    d in g ==> d in t.rank
  }

  /** A parent entry names the slot the directory is in. */
  predicate HangsAt(g: Graph, t: Tree, c: Directory) {
    c in t.parent ==>
      var p := t.parent[c];
      && c in g && p.dir in g && p.i < |g[p.dir].childs| && g[p.dir].childs[p.i] == c
      && c in t.rank && p.dir in t.rank && t.rank[p.dir] < t.rank[c]
  }

  /** What is in slot i of d has that slot for its parent entry. */
  predicate HoldsAt(g: Graph, t: Tree, d: Directory, i: nat) {
    d in g && i < |g[d].childs| && g[d].childs[i] != null ==>
      g[d].childs[i] in t.parent && t.parent[g[d].childs[i]] == Slot(d, i)
  }

  ghost predicate TreeOk(g: Graph, t: Tree) {
    && (forall d <- g :: RankOf(t, g, d))
    && (forall c <- t.parent :: HangsAt(g, t, c))
    && (forall d <- g, i: nat | i < 16 :: HoldsAt(g, t, d, i))
  }

  // ---- devices and mount points

  predicate IsMounted(s: Fs, dev: Device) {
    exists i :: 0 <= i < |s.mounts| && s.mounts[i].Some? && s.mounts[i].value.dev == dev
  }

  /** A directory belongs to the tree of its device, whose root is the only one to hang under another device. */
  predicate DeviceAt(s: Fs, t: Tree, d: Directory) {
    d in s.graph ==>
      var v := s.graph[d].device;
      && v.rootdir in s.graph && s.graph[v.rootdir].device == v
      && (d == v.rootdir ==>
            d in t.parent ==> IsMounted(s, v) && t.parent[d].dir in s.graph && s.graph[t.parent[d].dir].device != v)
      && (d != v.rootdir ==> d in t.parent && t.parent[d].dir in s.graph && s.graph[t.parent[d].dir].device == v)
  }

  /** A recorded device hangs in the tree, unless it is the root device. */
  predicate MountAt(s: Fs, t: Tree, i: nat) {
    i < |s.mounts| && s.mounts[i].Some? ==>
      var m := s.mounts[i].value;
      && m.path != "" && s.rootdevice != null
      && m.dev.rootdir in s.graph && s.graph[m.dev.rootdir].device == m.dev
      && (m.dev != s.rootdevice ==> m.dev.rootdir in t.parent)
  }

  predicate MountsDiffer(s: Fs, i: nat, j: nat) {
    i < j < |s.mounts| && s.mounts[i].Some? && s.mounts[j].Some? ==> s.mounts[i].value.dev != s.mounts[j].value.dev
  }

  predicate RootOk(s: Fs, t: Tree) {
    s.rootdevice != null ==> IsMounted(s, s.rootdevice) && s.rootdevice.rootdir !in t.parent
  }

  ghost predicate Sound(s: Fs, t: Tree) {
    && FsOk(s) && TreeOk(s.graph, t)
    && (forall d <- s.graph :: DeviceAt(s, t, d))
    && (forall i :: 0 <= i < 16 ==> MountAt(s, t, i))
    && (forall i, j :: 0 <= i < j < 16 ==> MountsDiffer(s, i, j))
    && RootOk(s, t)
  }

  // ---- tops

  /** The topmost directory above d. */
  function Top(g: Graph, t: Tree, d: Directory): (r: Directory)
    requires (forall c <- t.parent :: HangsAt(g, t, c)) && d in g
    ensures r in g && r !in t.parent
    decreases if d in t.rank && d in t.parent then 1 + t.rank[d] else 0
  {
    if d !in t.parent then d
    else
      assert HangsAt(g, t, d);
      Top(g, t, t.parent[d].dir)
  }

  /** What the walk finds hangs under the directory it starts from. */
  lemma {:induction false} WalkStaysBelow(g: Graph, t: Tree, dir: Directory, path: string, pos: nat)
    requires GraphOk(g) && TreeOk(g, t) && dir in g && pos <= |path|
    ensures var r := Walk(g, dir, path, pos);
            r != null ==> Top(g, t, r) == Top(g, t, dir) && r in t.rank && dir in t.rank && t.rank[dir] < t.rank[r]
    decreases |path| - pos
  {
    assert NodeShape(g, dir) && RankOf(t, g, dir);
    var e := EndOf(path, pos);
    var i := FindChild(g, g[dir].childs, path[pos..], e - pos, 0);
    if i < 16 {
      var c := g[dir].childs[i];
      assert ChildKnown(g, c) && HoldsAt(g, t, dir, i) && HangsAt(g, t, c);
      if e < |path| { WalkStaysBelow(g, t, c, path, e + 1); }
    }
  }

  /** Every directory lies in the same tree as the root of its device. */
  lemma {:induction false} SameTopAsDeviceRoot(s: Fs, t: Tree, d: Directory)
    requires Sound(s, t) && d in s.graph
    ensures var root := s.graph[d].device.rootdir;
            root in s.graph && Top(s.graph, t, d) == Top(s.graph, t, root)
    decreases if d in t.rank && d in t.parent then 1 + t.rank[d] else 0
  {
    assert DeviceAt(s, t, d);
    if d != s.graph[d].device.rootdir {
      assert HangsAt(s.graph, t, d);
      SameTopAsDeviceRoot(s, t, t.parent[d].dir);
    }
  }

  // ---- mkdir

  lemma TraverseStaysBelow(s: Fs, t: Tree, path: string)
    requires Sound(s, t) && path != "" && s.rootdevice != null
    ensures var r, root := Traverse(s, path), s.rootdevice.rootdir;
            r != null ==> r in s.graph && Top(s.graph, t, r) == root && (r != root ==> r in t.parent)
  {
    var root := s.rootdevice.rootdir;
    if |path| > 1 { WalkStaysBelow(s.graph, t, root, path, 1); }
    var r := Traverse(s, path);
    if r != null && r !in t.parent { assert Top(s.graph, t, r) == r; }
  }

  /** The tree with `child` hung into slot i of `dir`. */
  function Hung(t: Tree, child: Directory, dir: Directory, i: nat, rank: map<Directory, nat>): Tree {
    Tree(t.parent[child := Slot(dir, i)], rank)
  }

  lemma MkdirKeepsTree(g: Graph, t: Tree, dir: Directory, i: nat, added: Directory, node: Node)
    requires GraphOk(g) && TreeOk(g, t) && dir in g && i < 16 && NodeShape(g, dir) && g[dir].childs[i] == null
        && added !in g
    requires node.childs == NoChilds()
    ensures dir in t.rank && |g[added := node][dir].childs| == 16
    ensures TreeOk(WithChild(g[added := node], dir, i, added), Hung(t, added, dir, i, t.rank[added := t.rank[dir] + 1]))
  {
    assert RankOf(t, g, dir);
    var r, u := WithChild(g[added := node], dir, i, added), Hung(t, added, dir, i, t.rank[added := t.rank[dir] + 1]);
    forall d <- r ensures RankOf(u, r, d) { assert RankOf(t, g, d); }
    forall c <- u.parent ensures HangsAt(r, u, c) {
      if c != added { assert HangsAt(g, t, c); }
    }
    forall d <- r, j: nat | j < 16 ensures HoldsAt(r, u, d, j) {
      if d != added {
        assert NodeShape(g, d) && ChildKnown(g, g[d].childs[j]) && HoldsAt(g, t, d, j);
      }
    }
  }

  lemma MkdirKeepsSound(s: Fs, t: Tree, path: string, added: Directory) returns (u: Tree)
    requires Sound(s, t) && path != "" && added !in s.graph && NoNul(path)
    requires s.rootdevice != null ==> Traverse(s, BaseDir(path)) != null
    ensures Sound(Mkdir(s, path, added).0, u)
  {
    var r := Mkdir(s, path, added).0;
    if r == s { return t; }
    var dir := Traverse(s, BaseDir(path));
    assert NodeShape(s.graph, dir);
    var i := FindFree(s.graph[dir].childs, 0);
    var node := Node(FileName(path), s.graph[dir].device, NoChilds());
    MkdirKeepsTree(s.graph, t, dir, i, added, node);
    u := Hung(t, added, dir, i, t.rank[added := t.rank[dir] + 1]);
    assert r == s.(graph := WithChild(s.graph[added := node], dir, i, added));
    MkdirKeepsDevices(s, t, dir, i, added, node, u);
  }

  lemma MkdirKeepsDevices(s: Fs, t: Tree, dir: Directory, i: nat, added: Directory, node: Node, u: Tree)
    requires Sound(s, t) && dir in s.graph && i < |s.graph[dir].childs| && added !in s.graph
        && node.device == s.graph[dir].device
    requires u.parent == t.parent[added := Slot(dir, i)]
    ensures var r := s.(graph := WithChild(s.graph[added := node], dir, i, added));
            && (forall d <- r.graph :: DeviceAt(r, u, d))
            && (forall k :: 0 <= k < 16 ==> MountAt(r, u, k))
            && (forall j, k :: 0 <= j < k < 16 ==> MountsDiffer(r, j, k))
            && RootOk(r, u)
  {
    var r := s.(graph := WithChild(s.graph[added := node], dir, i, added));
    assert DeviceAt(s, t, dir);
    forall d <- r.graph ensures DeviceAt(r, u, d) {
      if d != added {
        assert DeviceAt(s, t, d);
        assert d in t.parent ==> HangsAt(s.graph, t, d);
        assert IsMounted(s, s.graph[d].device) ==> IsMounted(r, s.graph[d].device);
      }
    }
    forall k | 0 <= k < 16 ensures MountAt(r, u, k) { assert MountAt(s, t, k); }
    forall j, k | 0 <= j < k < 16 ensures MountsDiffer(r, j, k) { assert MountsDiffer(s, j, k); }
    assert s.rootdevice != null ==> IsMounted(r, s.rootdevice) && s.rootdevice.rootdir in s.graph;
  }

  // ---- mount

  /** Everything under `top` moves below rank `floor`. */
  ghost function Lowered(g: Graph, t: Tree, top: Directory, floor: nat): (rank: map<Directory, nat>)
    requires TreeOk(g, t)
  {
    map d <- g | d in t.rank :: if Top(g, t, d) == top then t.rank[d] + floor + 1 else t.rank[d]
  }

  lemma LinkKeepsTree(g: Graph, t: Tree, dir: Directory, i: nat, child: Directory)
    requires GraphOk(g) && TreeOk(g, t) && dir in g && child in g && i < |g[dir].childs| && g[dir].childs[i] == null
    requires child !in t.parent && Top(g, t, dir) != child
    ensures dir in t.rank
    ensures TreeOk(WithChild(g, dir, i, child), Hung(t, child, dir, i, Lowered(g, t, child, t.rank[dir])))
  {
    assert RankOf(t, g, dir) && RankOf(t, g, child);
    var rank := Lowered(g, t, child, t.rank[dir]);
    var r, u := WithChild(g, dir, i, child), Hung(t, child, dir, i, rank);
    forall d <- r ensures RankOf(u, r, d) { assert RankOf(t, g, d); }
    forall c <- u.parent ensures HangsAt(r, u, c) {
      if c != child {
        assert HangsAt(g, t, c);
        assert Top(g, t, c) == Top(g, t, t.parent[c].dir);
      }
    }
    forall d <- r, j: nat | j < 16 ensures HoldsAt(r, u, d, j) {
      assert NodeShape(g, d) && ChildKnown(g, g[d].childs[j]) && HoldsAt(g, t, d, j);
    }
  }

  predicate Registered(s: Fs, dev: Device) {
    dev.rootdir in s.graph && s.graph[dev.rootdir].device == dev
  }

  lemma UnmountedDeviceIsOnTop(s: Fs, t: Tree, dev: Device)
    requires Sound(s, t) && Registered(s, dev) && FindDevice(s.mounts, dev, 0) == 16
    ensures dev.rootdir !in t.parent && !IsMounted(s, dev) && dev != s.rootdevice
  {
    assert DeviceAt(s, t, dev.rootdir);
  }

  /** `fs_mount` keeps the trees as long as mountinfo has a free slot for the record. */
  lemma MountKeepsSound(s: Fs, t: Tree, dev: Device, path: string) returns (u: Tree)
    requires Sound(s, t) && Registered(s, dev) && path != ""
    requires s.rootdevice != null && FindDevice(s.mounts, dev, 0) == 16 ==> Traverse(s, path) != null
    requires FindFreeDevice(s.mounts, 0) < 16
    ensures Sound(Mounted(s, dev, path), u)
  {
    u := t;
    if s.rootdevice == null {
      if path == "/" {
        FirstMountKeepsDevices(s, t, dev, path);
      }
    } else if FindDevice(s.mounts, dev, 0) == 16 {
      var dir := Traverse(s, path);
      assert NodeShape(s.graph, dir);
      var i := FindFree(s.graph[dir].childs, 0);
      if i < 16 {
        TraverseStaysBelow(s, t, path);
        LinkKeepsShape(s.graph, s.graph, dev.rootdir, dir, i, dev.rootdir);
        u := LinkKeepsSound(s, t, dir, i, dev, path);
      }
    }
  }

  lemma RootIsRegistered(s: Fs, t: Tree)
    requires Sound(s, t) && s.rootdevice != null
    ensures Registered(s, s.rootdevice)
  {
    var i :| 0 <= i < |s.mounts| && s.mounts[i].Some? && s.mounts[i].value.dev == s.rootdevice;
    assert MountAt(s, t, i);
  }

  lemma FirstMountKeepsDevices(s: Fs, t: Tree, dev: Device, path: string)
    requires Sound(s, t) && Registered(s, dev) && path != "" && s.rootdevice == null
    requires FindFreeDevice(s.mounts, 0) < 16
    ensures Sound(Recorded(s.(rootdevice := dev), dev, path), t)
  {
    var k := FindFreeDevice(s.mounts, 0);
    var r := Recorded(s.(rootdevice := dev), dev, path);
    forall i | 0 <= i < 16 ensures s.mounts[i].None? { assert MountAt(s, t, i); }
    assert r.mounts[k].Some? && r.mounts[k].value.dev == dev;
    forall d <- r.graph ensures DeviceAt(r, t, d) { assert DeviceAt(s, t, d); }
    assert DeviceAt(s, t, dev.rootdir);
    forall i | 0 <= i < 16 ensures MountAt(r, t, i) { }
    forall i, j | 0 <= i < j < 16 ensures MountsDiffer(r, i, j) { }
  }

  lemma RecordKeepsMounted(s: Fs, r: Fs, dev: Device, path: string, v: Device)
    requires FsOk(s) && FindFreeDevice(s.mounts, 0) < 16
        && r.mounts == s.mounts[FindFreeDevice(s.mounts, 0) := Some(Mount(dev, path))]
    ensures IsMounted(r, dev) && (IsMounted(s, v) ==> IsMounted(r, v))
  {
    var k := FindFreeDevice(s.mounts, 0);
    assert r.mounts[k].Some? && r.mounts[k].value.dev == dev;
    if IsMounted(s, v) {
      var j :| 0 <= j < |s.mounts| && s.mounts[j].Some? && s.mounts[j].value.dev == v;
      assert r.mounts[j].Some? && r.mounts[j].value.dev == v;
    }
  }

  /** A directory below the root does not belong to a device that is not mounted. */
  lemma BelowRootIsMounted(s: Fs, t: Tree, dir: Directory, dev: Device)
    requires Sound(s, t) && Registered(s, dev) && FindDevice(s.mounts, dev, 0) == 16 && s.rootdevice != null
    requires dir in s.graph && Top(s.graph, t, dir) == s.rootdevice.rootdir
    ensures s.graph[dir].device != dev
  {
    UnmountedDeviceIsOnTop(s, t, dev);
    SameTopAsDeviceRoot(s, t, dir);
    RootIsRegistered(s, t);
    assert Top(s.graph, t, dev.rootdir) == dev.rootdir;
  }

  lemma LinkKeepsDevices(s: Fs, t: Tree, dir: Directory, i: nat, dev: Device, path: string, u: Tree)
    requires Sound(s, t) && Registered(s, dev) && path != "" && s.rootdevice != null && dir in s.graph
    requires FindDevice(s.mounts, dev, 0) == 16 && FindFreeDevice(s.mounts, 0) < 16
    requires i < |s.graph[dir].childs| && Top(s.graph, t, dir) == s.rootdevice.rootdir
    requires u.parent == t.parent[dev.rootdir := Slot(dir, i)]
    requires FsOk(s.(graph := WithChild(s.graph, dir, i, dev.rootdir)))
    ensures var r := Recorded(s.(graph := WithChild(s.graph, dir, i, dev.rootdir)), dev, path);
            forall d <- r.graph :: DeviceAt(r, u, d)
  {
    var r := Recorded(s.(graph := WithChild(s.graph, dir, i, dev.rootdir)), dev, path);
    UnmountedDeviceIsOnTop(s, t, dev);
    BelowRootIsMounted(s, t, dir, dev);
    WithChildSameDevices(s.graph, dir, i, dev.rootdir);
    forall d <- r.graph ensures DeviceAt(r, u, d) {
      assert DeviceAt(s, t, d);
      RecordKeepsMounted(s, r, dev, path, s.graph[d].device);
      DeviceStays(s, t, r, u, dir, i, dev, d);
    }
  }

  predicate SameDevices(g: Graph, r: Graph) {
    g.Keys == r.Keys && forall d <- g :: r[d].device == g[d].device
  }

  lemma WithChildSameDevices(g: Graph, dir: Directory, i: nat, child: Directory?)
    requires dir in g && i < |g[dir].childs|
    ensures SameDevices(g, WithChild(g, dir, i, child))
  {
  }

  lemma DeviceStays(s: Fs, t: Tree, r: Fs, u: Tree, dir: Directory, i: nat, dev: Device, d: Directory)
    requires d in s.graph && DeviceAt(s, t, d) && SameDevices(s.graph, r.graph) && Registered(s, dev)
    requires dir in s.graph && s.graph[dir].device != dev && u.parent == t.parent[dev.rootdir := Slot(dir, i)]
    requires IsMounted(r, dev) && (IsMounted(s, s.graph[d].device) ==> IsMounted(r, s.graph[d].device))
    ensures DeviceAt(r, u, d)
  {
  }

  lemma LinkKeepsMounts(s: Fs, t: Tree, dir: Directory, i: nat, dev: Device, path: string, u: Tree)
    requires Sound(s, t) && Registered(s, dev) && path != "" && s.rootdevice != null && dir in s.graph
    requires FindDevice(s.mounts, dev, 0) == 16 && FindFreeDevice(s.mounts, 0) < 16
    requires i < |s.graph[dir].childs| && Top(s.graph, t, dir) == s.rootdevice.rootdir
    requires u.parent == t.parent[dev.rootdir := Slot(dir, i)]
    requires FsOk(s.(graph := WithChild(s.graph, dir, i, dev.rootdir)))
    ensures var r := Recorded(s.(graph := WithChild(s.graph, dir, i, dev.rootdir)), dev, path);
            && (forall k :: 0 <= k < 16 ==> MountAt(r, u, k))
            && (forall j, k :: 0 <= j < k < 16 ==> MountsDiffer(r, j, k))
            && RootOk(r, u)
  {
    var r := Recorded(s.(graph := WithChild(s.graph, dir, i, dev.rootdir)), dev, path);
    UnmountedDeviceIsOnTop(s, t, dev);
    RootIsRegistered(s, t);
    RecordKeepsMounted(s, r, dev, path, s.rootdevice);
    WithChildSameDevices(s.graph, dir, i, dev.rootdir);
    forall j | 0 <= j < 16 ensures MountAt(r, u, j) {
      assert MountAt(s, t, j);
      MountStays(s, t, r, u, dev, path, j);
    }
    MountsStayDifferent(s, r, dev, path);
  }

  lemma MountsStayDifferent(s: Fs, r: Fs, dev: Device, path: string)
    requires |s.mounts| == 16 && FindDevice(s.mounts, dev, 0) == 16
    requires forall j, m :: 0 <= j < m < 16 ==> MountsDiffer(s, j, m)
    requires FindFreeDevice(s.mounts, 0) < 16
        && r.mounts == s.mounts[FindFreeDevice(s.mounts, 0) := Some(Mount(dev, path))]
    ensures forall j, m :: 0 <= j < m < 16 ==> MountsDiffer(r, j, m)
  {
    forall j, m | 0 <= j < m < 16 ensures MountsDiffer(r, j, m) { assert MountsDiffer(s, j, m); }
  }

  lemma MountStays(s: Fs, t: Tree, r: Fs, u: Tree, dev: Device, path: string, j: nat)
    requires |s.mounts| == 16 && MountAt(s, t, j) && SameDevices(s.graph, r.graph) && Registered(s, dev) && path != ""
    requires r.rootdevice == s.rootdevice && s.rootdevice != null && dev.rootdir in u.parent
        && t.parent.Keys <= u.parent.Keys
    requires FindFreeDevice(s.mounts, 0) < 16
        && r.mounts == s.mounts[FindFreeDevice(s.mounts, 0) := Some(Mount(dev, path))]
    ensures MountAt(r, u, j)
  {
  }

  lemma LinkKeepsSound(s: Fs, t: Tree, dir: Directory, i: nat, dev: Device, path: string) returns (u: Tree)
    requires Sound(s, t) && Registered(s, dev) && path != "" && s.rootdevice != null && dir in s.graph
    requires FindDevice(s.mounts, dev, 0) == 16 && FindFreeDevice(s.mounts, 0) < 16
    requires i < |s.graph[dir].childs| && s.graph[dir].childs[i] == null && Top(s.graph, t, dir) == s.rootdevice.rootdir
    requires FsOk(s.(graph := WithChild(s.graph, dir, i, dev.rootdir)))
    ensures Sound(Recorded(s.(graph := WithChild(s.graph, dir, i, dev.rootdir)), dev, path), u)
  {
    UnmountedDeviceIsOnTop(s, t, dev);
    RootIsRegistered(s, t);
    LinkKeepsTree(s.graph, t, dir, i, dev.rootdir);
    u := Hung(t, dev.rootdir, dir, i, Lowered(s.graph, t, dev.rootdir, t.rank[dir]));
    LinkKeepsDevices(s, t, dir, i, dev, path, u);
    LinkKeepsMounts(s, t, dir, i, dev, path, u);
  }

  // ---- unmount

  function Unhung(t: Tree, child: Directory): Tree {
    t.(parent := t.parent - {child})
  }

  lemma UnlinkKeepsTree(g: Graph, t: Tree, dir: Directory, i: nat)
    requires GraphOk(g) && TreeOk(g, t) && dir in g && i < 16 && i < |g[dir].childs| && g[dir].childs[i] != null
    ensures TreeOk(WithChild(g, dir, i, null), Unhung(t, g[dir].childs[i]))
    ensures g[dir].childs[i] in t.parent && t.parent[g[dir].childs[i]] == Slot(dir, i)
  {
    var child := g[dir].childs[i];
    var r, u := WithChild(g, dir, i, null), Unhung(t, child);
    assert HoldsAt(g, t, dir, i);
    forall d <- r ensures RankOf(u, r, d) { assert RankOf(t, g, d); }
    forall c <- u.parent ensures HangsAt(r, u, c) { assert HangsAt(g, t, c); }
    forall d <- r, j: nat | j < 16 ensures HoldsAt(r, u, d, j) { assert HoldsAt(g, t, d, j) && NodeShape(g, d); }
  }

  /** `fs_unmount` keeps the trees whatever the path of the mount point leads to by now. */
  lemma UnmountKeepsSound(s: Fs, t: Tree, dev: Device) returns (u: Tree)
    requires Sound(s, t)
    requires var k := FindDevice(s.mounts, dev, 0); k < 16 ==>
        (assert MountAt(s, t, k); Traverse(s, s.mounts[k].value.path) != null)
    ensures forall j :: 0 <= j < 16 && s.mounts[j].Some? ==> s.mounts[j].value.path != ""
    ensures Sound(Unmounted(s, dev), u)
  {
    forall j | 0 <= j < 16 && s.mounts[j].Some? ensures s.mounts[j].value.path != "" { assert MountAt(s, t, j); }
    u := t;
    var k := FindDevice(s.mounts, dev, 0);
    if k < 16 {
      var dir := Traverse(s, s.mounts[k].value.path);
      assert NodeShape(s.graph, dir);
      var i := FindSlot(s.graph[dir].childs, dev.rootdir, 0);
      if i < 16 {
        UnlinkKeepsTree(s.graph, t, dir, i);
        u := Unhung(t, dev.rootdir);
        UnlinkKeepsDevices(s, t, dir, i, dev, k, u);
      }
    }
  }

  lemma UnlinkKeepsDevices(s: Fs, t: Tree, dir: Directory, i: nat, dev: Device, k: nat, u: Tree)
    requires Sound(s, t) && k < 16 && s.mounts[k].Some? && s.mounts[k].value.dev == dev && dir in s.graph
    requires i < |s.graph[dir].childs| && s.graph[dir].childs[i] == dev.rootdir
    requires dev.rootdir in t.parent && u.parent == t.parent - {dev.rootdir}
    ensures var r := s.(graph := WithChild(s.graph, dir, i, null), mounts := s.mounts[k := None]);
            && (forall d <- r.graph :: DeviceAt(r, u, d))
            && (forall j :: 0 <= j < 16 ==> MountAt(r, u, j))
            && (forall j, m :: 0 <= j < m < 16 ==> MountsDiffer(r, j, m))
            && RootOk(r, u)
  {
    var r := s.(graph := WithChild(s.graph, dir, i, null), mounts := s.mounts[k := None]);
    assert MountAt(s, t, k) && s.rootdevice != dev;
    forall d <- r.graph ensures DeviceAt(r, u, d) {
      assert DeviceAt(s, t, d);
      var v := s.graph[d].device;
      if v != dev && IsMounted(s, v) { UnrecordKeepsMounted(s, r, k, v); }
    }
    UnrecordKeepsMounted(s, r, k, s.rootdevice);
    forall j | 0 <= j < 16 ensures MountAt(r, u, j) {
      assert MountAt(s, t, j) && MountsDiffer(s, j, k) && MountsDiffer(s, k, j);
      assert j != k && s.mounts[j].Some? ==> s.mounts[j].value.dev != dev;
    }
    forall j, m | 0 <= j < m < 16 ensures MountsDiffer(r, j, m) { assert MountsDiffer(s, j, m); }
  }

  lemma UnrecordKeepsMounted(s: Fs, r: Fs, k: nat, v: Device?)
    requires k < |s.mounts| && r.mounts == s.mounts[k := None] && s.mounts[k].Some?
    requires v != null && v != s.mounts[k].value.dev && IsMounted(s, v)
    ensures IsMounted(r, v)
  {
    var j :| 0 <= j < |s.mounts| && s.mounts[j].Some? && s.mounts[j].value.dev == v;
    assert r.mounts[j].Some? && r.mounts[j].value.dev == v;
  }

  // ---- runs

  datatype Op =
    | AddDevice(dev: Device, name: string)
    | MakeDir(path: string, added: Directory)
    | MountAtPath(dev: Device, path: string)
    | Unmount(dev: Device)

  /** Parents and mount points resolve, new directories are new, and mountinfo has a slot for a mount's record. */
  predicate Enabled(s: Fs, op: Op) {
    && FsOk(s)
    && (forall j :: 0 <= j < 16 && s.mounts[j].Some? ==> s.mounts[j].value.path != "")
    && match op
       case AddDevice(dev, name) => dev.rootdir !in s.graph && NoNul(name)
       case MakeDir(path, added) =>
         path != "" && NoNul(path) && added !in s.graph && (s.rootdevice != null ==> Traverse(s, BaseDir(path)) != null)
       case MountAtPath(dev, path) =>
         && Registered(s, dev) && path != "" && FindFreeDevice(s.mounts, 0) < 16
         && (s.rootdevice != null && FindDevice(s.mounts, dev, 0) == 16 ==> Traverse(s, path) != null)
       case Unmount(dev) =>
         var k := FindDevice(s.mounts, dev, 0); k < 16 ==> Traverse(s, s.mounts[k].value.path) != null
  }

  function Next(s: Fs, op: Op): Fs
    requires Enabled(s, op)
  {
    match op
    case AddDevice(dev, name) => s.(graph := s.graph[dev.rootdir := Node(name, dev, NoChilds())])
    case MakeDir(path, added) => Mkdir(s, path, added).0
    case MountAtPath(dev, path) => Mounted(s, dev, path)
    case Unmount(dev) => Unmounted(s, dev)
  }

  lemma AddDeviceKeepsSound(s: Fs, t: Tree, dev: Device, name: string) returns (u: Tree)
    requires Sound(s, t) && dev.rootdir !in s.graph && NoNul(name)
    ensures Sound(s.(graph := s.graph[dev.rootdir := Node(name, dev, NoChilds())]), u)
  {
    var d := dev.rootdir;
    var r := s.(graph := s.graph[d := Node(name, dev, NoChilds())]);
    u := t.(rank := t.rank[d := 0]);
    forall x <- r.graph ensures NodeShape(r.graph, x) && DeviceAt(r, u, x) && RankOf(u, r.graph, x) {
      if x != d {
        assert NodeShape(s.graph, x) && DeviceAt(s, t, x) && RankOf(t, s.graph, x);
        assert forall i :: 0 <= i < 16 ==> ChildKnown(s.graph, s.graph[x].childs[i]);
        assert IsMounted(s, s.graph[x].device) ==> IsMounted(r, s.graph[x].device);
      } else {
        assert d in t.parent ==> HangsAt(s.graph, t, d);
      }
    }
    forall c <- u.parent ensures HangsAt(r.graph, u, c) { assert HangsAt(s.graph, t, c); }
    forall x <- r.graph, i: nat | i < 16 ensures HoldsAt(r.graph, u, x, i) {
      if x != d { assert HoldsAt(s.graph, t, x, i) && NodeShape(s.graph, x); }
    }
    forall i | 0 <= i < 16 ensures MountAt(r, u, i) { assert MountAt(s, t, i); }
    forall i, j | 0 <= i < j < 16 ensures MountsDiffer(r, i, j) { assert MountsDiffer(s, i, j); }
    assert s.rootdevice != null ==> IsMounted(r, s.rootdevice);
  }

  lemma NextKeepsSound(s: Fs, t: Tree, op: Op) returns (u: Tree)
    requires Sound(s, t) && Enabled(s, op)
    ensures Sound(Next(s, op), u)
  {
    match op
    case AddDevice(dev, name) => u := AddDeviceKeepsSound(s, t, dev, name);
    case MakeDir(path, added) => u := MkdirKeepsSound(s, t, path, added);
    case MountAtPath(dev, path) => u := MountKeepsSound(s, t, dev, path);
    case Unmount(dev) => u := UnmountKeepsSound(s, t, dev);
  }

  predicate RunEnabled(s: Fs, ops: seq<Op>)
    decreases |ops|
  {
    ops == [] || (Enabled(s, ops[0]) && RunEnabled(Next(s, ops[0]), ops[1..]))
  }

  function Run(s: Fs, ops: seq<Op>): Fs
    requires RunEnabled(s, ops)
    decreases |ops|
  {
    if ops == [] then s else Run(Next(s, ops[0]), ops[1..])
  }

  function Empty(): Fs {
    Fs(map[], null, seq(16, i => None))
  }

  /** Whatever is created, mounted and unmounted, the directories stay trees. */
  lemma {:induction false} RunKeepsSound(s: Fs, t: Tree, ops: seq<Op>) returns (u: Tree)
    requires Sound(s, t) && RunEnabled(s, ops)
    ensures Sound(Run(s, ops), u)
    decreases |ops|
  {
    u := t;
    if ops != [] {
      u := NextKeepsSound(s, t, ops[0]);
      u := RunKeepsSound(Next(s, ops[0]), u, ops[1..]);
    }
  }

  lemma EmptyIsSound()
    ensures Sound(Empty(), Tree(map[], map[]))
  {
  }

  // ---- what soundness means

  /** The directory reached by taking these slots one after the other. */
  function Follow(g: Graph, d: Directory, slots: seq<nat>): (r: Directory?)
    requires d in g && GraphOk(g)
    ensures ChildKnown(g, r)
    decreases |slots|
  {
    if slots == [] then d
    else
      var p := Follow(g, d, slots[..|slots| - 1]);
      var i := slots[|slots| - 1];
      if p == null || i >= 16 then null
      else
        assert NodeShape(g, p);
        assert ChildKnown(g, g[p].childs[i]);
        g[p].childs[i]
  }

  lemma {:induction false} FollowGoesDown(g: Graph, t: Tree, d: Directory, slots: seq<nat>)
    requires GraphOk(g) && TreeOk(g, t) && d in g
    ensures var r := Follow(g, d, slots);
            r != null ==> d in t.rank && r in t.rank && t.rank[d] + |slots| <= t.rank[r]
    decreases |slots|
  {
    assert RankOf(t, g, d);
    if slots != [] {
      var front, i := slots[..|slots| - 1], slots[|slots| - 1];
      FollowGoesDown(g, t, d, front);
      var p := Follow(g, d, front);
      if p != null && i < 16 {
        assert NodeShape(g, p) && HoldsAt(g, t, p, i);
        var c := g[p].childs[i];
        if c != null { assert HangsAt(g, t, c); }
      }
    }
  }

  /** No directory can be reached from another by two ways. */
  lemma {:induction false} AtMostOneWay(g: Graph, t: Tree, d: Directory, a: seq<nat>, b: seq<nat>)
    requires GraphOk(g) && TreeOk(g, t) && d in g
    requires Follow(g, d, a) == Follow(g, d, b) != null
    ensures a == b
    decreases |a|
  {
    FollowGoesDown(g, t, d, a);
    FollowGoesDown(g, t, d, b);
    if a != [] && b != [] {
      var n, m := |a| - 1, |b| - 1;
      var p, q := Follow(g, d, a[..n]), Follow(g, d, b[..m]);
      assert HoldsAt(g, t, p, a[n]) && HoldsAt(g, t, q, b[m]);
      AtMostOneWay(g, t, d, a[..n], b[..m]);
      assert a == a[..n] + [a[n]] && b == b[..m] + [b[m]];
    }
  }

  /** Slot i of d holds a directory of another device exactly when that is the root of a recorded one. */
  predicate BorderIsMount(s: Fs, d: Directory, i: nat)
    requires d in s.graph && i < |s.graph[d].childs|
  {
    var c := s.graph[d].childs[i];
    c != null ==>
      && c in s.graph
      && (s.graph[c].device != s.graph[d].device <==>
          exists k :: 0 <= k < |s.mounts| && s.mounts[k].Some? && s.mounts[k].value.dev.rootdir == c)
  }

  /** The device changes from parent to child exactly where a device is mounted. */
  lemma DevicesChangeAtMounts(s: Fs, t: Tree, d: Directory, i: nat)
    requires Sound(s, t) && d in s.graph && i < 16 && NodeShape(s.graph, d)
    ensures BorderIsMount(s, d, i)
  {
    var c := s.graph[d].childs[i];
    if c != null {
      assert ChildKnown(s.graph, c) && HoldsAt(s.graph, t, d, i) && DeviceAt(s, t, c);
      if k :| 0 <= k < 16 && s.mounts[k].Some? && s.mounts[k].value.dev.rootdir == c {
        assert MountAt(s, t, k);
      }
    }
  }
}
