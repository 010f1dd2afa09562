/** The kernel's filesystem tree in memory: linked directories, the root device and the table of mounts. */
module FileSystem {
  import opened Wrappers
  import opened CStrings
  import opened PathNames
  import opened Namespace
  import opened NamespaceTree
  import opened NamespaceEffects

  ghost function NodeOf(d: Directory): Node
    requires d.device != null
    reads d
  {
    Node(d.name, d.device, d.childs)
  }

  ghost function GraphOf(dirs: set<Directory>): (g: Graph)
    requires forall d <- dirs :: d.device != null
    reads dirs
    ensures g.Keys == dirs
  {
    map d <- dirs :: NodeOf(d)
  }

  /** What `fs_unmount` does once everything is found. */
  lemma UnmountedIs(s: Fs, dev: Device, k: nat, dir: Directory, i: nat)
    requires FsOk(s) && dir in s.graph && NodeShape(s.graph, dir)
    requires forall j :: 0 <= j < 16 && s.mounts[j].Some? ==> s.mounts[j].value.path != ""
    requires k == FindDevice(s.mounts, dev, 0) < 16 && dir == Traverse(s, s.mounts[k].value.path)
    requires i == FindSlot(s.graph[dir].childs, dev.rootdir, 0) < 16
    ensures Unmounted(s, dev) == s.(graph := WithChild(s.graph, dir, i, null), mounts := s.mounts[k := None])
  {
  }

  class DirectoryTree {
    var rootdevice: Device?
    var mounts: seq<Option<Mount>>
    /** Every directory there is, mounted or not. */
    ghost var dirs: set<Directory>

    ghost predicate Valid()
      reads this, dirs
    {
      (forall d <- dirs :: d.device != null) && FsOk(View())
    }

    ghost function View(): (s: Fs)
      requires forall d <- dirs :: d.device != null
      reads this, dirs
    {
      Fs(GraphOf(dirs), rootdevice, mounts)
    }

    constructor ()
      ensures Valid() && View() == Empty() && dirs == {}
    {
      rootdevice := null;
      mounts := seq(16, i => None);
      dirs := {};
    }

    /** `fs_traverse` */
    method Traverse(path: string) returns (found: Directory?)
      requires Valid() && path != "" && NoNul(path)
      ensures found == Namespace.Traverse(View(), path)
    {
      if rootdevice == null { return null; }
      var dir := rootdevice.rootdir;
      var pos := 1;
      if At(path, pos) == '\0' { return dir; }
      ghost var target := Walk(View().graph, dir, path, 1);
      while true
        invariant 1 <= pos <= |path| && dir in View().graph && Walk(View().graph, dir, path, pos) == target
        decreases |path| - pos
      {
        var next, e := Enter(dir, path, pos);
        if next == null { return null; }
        dir, pos := next, e;
        if At(path, pos) == '\0' { return dir; }
        pos := pos + 1;
      }
    }

    /** One turn of its loop: the child for the component at `pos`, and the end of the component. */
    method Enter(dir: Directory, path: string, pos: nat) returns (next: Directory?, e: nat)
      requires Valid() && dir in View().graph && pos <= |path| && NoNul(path)
      ensures pos <= e <= |path| && (next == null || next in View().graph)
      ensures Walk(View().graph, dir, path, pos) ==
              if next == null || e == |path| then next else Walk(View().graph, next, path, e + 1)
    {
      ghost var g := View().graph;
      assert NodeShape(g, dir);
      WalkStep(g, dir, path, pos);
      assert dir.childs == g[dir].childs;
      e := SkipName(path, pos);
      var i := FindChild(dir, path[pos..], e - pos);
      next := if i == 16 then null else dir.childs[i];
    }

    /** Moves `pos` behind the component it is in. */
    method SkipName(path: string, start: nat) returns (pos: nat)
      requires start <= |path| && NoNul(path)
      ensures pos == EndOf(path, start)
    {
      pos := start;
      while At(path, pos) != '\0' && At(path, pos) != '/'
        invariant start <= pos <= |path| && EndOf(path, start) == EndOf(path, pos)
        decreases |path| - pos
      {
        pos := pos + 1;
      }
    }

    /** The scan of the child slots in `fs_traverse`. */
    method FindChild(dir: Directory, curr: string, n: int) returns (i: nat)
      requires Valid() && dir in dirs && |dir.childs| == 16
      requires forall j :: 0 <= j < 16 ==> ChildKnown(View().graph, dir.childs[j])
      ensures i == Namespace.FindChild(View().graph, dir.childs, curr, n, 0)
    {
      i := 0;
      ghost var g := View().graph;
      while i < 16
        invariant 0 <= i <= 16
            && Namespace.FindChild(g, dir.childs, curr, n, 0) == Namespace.FindChild(g, dir.childs, curr, n, i)
      {
        assert ChildKnown(g, dir.childs[i]);
        if dir.childs[i] != null {
          assert NodeShape(g, dir.childs[i]);
          var r := StrNCompare(dir.childs[i].name, curr, n);
          if r == 0 { break; }
        }
        i := i + 1;
      }
    }

    method FindFreeChild(dir: Directory) returns (i: nat)
      requires |dir.childs| == 16
      ensures i == FindFree(dir.childs, 0)
    {
      i := 0;
      while i < 16
        invariant 0 <= i <= 16 && FindFree(dir.childs, 0) == FindFree(dir.childs, i)
      {
        if dir.childs[i] == null { break; }
        i := i + 1;
      }
    }

    method FindMount(dev: Device) returns (i: nat)
      requires |mounts| == 16
      ensures i == FindDevice(mounts, dev, 0)
    {
      i := 0;
      while i < 16
        invariant 0 <= i <= 16 && FindDevice(mounts, dev, 0) == FindDevice(mounts, dev, i)
      {
        if mounts[i].Some? && mounts[i].value.dev == dev { break; }
        i := i + 1;
      }
    }

    method FindFreeMount() returns (i: nat)
      requires |mounts| == 16
      ensures i == FindFreeDevice(mounts, 0)
    {
      i := 0;
      while i < 16
        invariant 0 <= i <= 16 && FindFreeDevice(mounts, 0) == FindFreeDevice(mounts, i)
      {
        if mounts[i].None? { break; }
        i := i + 1;
      }
    }

    /** A device with an empty root directory, as `fs_init` sets one up. */
    method AddDevice(name: string, dirname: string) returns (dev: Device)
      requires Valid() && NoNul(dirname)
      modifies this`dirs
      ensures Valid() && fresh(dev) && fresh(dev.rootdir) && dirs == old(dirs) + {dev.rootdir}
      ensures dev.rootdir !in old(dirs)
          && View() == old(View()).(graph := old(View()).graph[dev.rootdir := Node(dirname, dev, NoChilds())])
    {
      var rootdir := new Directory(dirname);
      dev := new Device(name, rootdir);
      rootdir.device := dev;
      ghost var g := View().graph;
      dirs := dirs + {rootdir};
      assert View().graph == g[rootdir := Node(dirname, dev, NoChilds())];
      forall d <- View().graph ensures NodeShape(View().graph, d) {
        if d != rootdir { assert NodeShape(g, d) && forall j :: 0 <= j < 16 ==> ChildKnown(g, g[d].childs[j]); }
      }
    }

    /** Puts a directory into a slot. */
    method SetChild(dir: Directory, i: nat, child: Directory?)
      requires Valid() && dir in dirs && i < 16 && |dir.childs| == 16 && (child != null ==> child in dirs)
      modifies dir`childs
      ensures Valid() && dir in View().graph
          && View() == old(View()).(graph := WithChild(old(View()).graph, dir, i, child))
    {
      ghost var g := View().graph;
      assert NodeShape(g, dir);
      dir.childs := dir.childs[i := child];
      assert View().graph == WithChild(g, dir, i, child);
      LinkKeepsShape(g, g, dir, dir, i, child);
    }

    /** `fs_mkdir` */
    method MakeDir(path: string) returns (made: Directory?)
      requires Valid() && path != "" && NoNul(path)
      requires rootdevice != null ==> Namespace.Traverse(View(), BaseDir(path)) != null
      modifies this`dirs, dirs`childs
      ensures Valid()
      ensures made == null ==>
          && View() == old(View())
          && (rootdevice == null ||
              FindFree(old(View()).graph[Namespace.Traverse(old(View()), BaseDir(path))].childs, 0) == 16)
      ensures made != null ==>
          fresh(made) && made !in old(View()).graph && Mkdir(old(View()), path, made) == (View(), true)
    {
      if rootdevice == null { return null; }
      var parent := Basedir(path);
      var parentdir := Traverse(parent);
      var dirname := Filename(path);
      ghost var s := View();
      assert NodeShape(s.graph, parentdir);
      var pos := FindFreeChild(parentdir);
      if pos == 16 { return null; }
      var dir := NewDirectory(dirname, parentdir.device);
      SetChild(parentdir, pos, dir);
      made := dir;
    }

    /** An empty directory that hangs nowhere yet. */
    method NewDirectory(name: string, device: Device) returns (dir: Directory)
      requires Valid() && NoNul(name)
      modifies this`dirs
      ensures Valid() && fresh(dir) && dirs == old(dirs) + {dir} && dir !in old(dirs)
      ensures View() == old(View()).(graph := old(View()).graph[dir := Node(name, device, NoChilds())])
    {
      dir := new Directory(name);
      dir.device := device;
      ghost var g := View().graph;
      dirs := dirs + {dir};
      assert View().graph == g[dir := Node(name, device, NoChilds())];
      forall d <- View().graph ensures NodeShape(View().graph, d) {
        if d != dir { assert NodeShape(g, d) && forall j :: 0 <= j < 16 ==> ChildKnown(g, g[d].childs[j]); }
      }
    }

    /** The end of `fs_mount`: the record in mountinfo, if there is a slot for it. */
    method Record(dev: Device, path: string)
      requires Valid()
      modifies this`mounts
      ensures Valid() && View() == Recorded(old(View()), dev, path)
    {
      var pos := FindFreeMount();
      if pos != 16 {
        mounts := mounts[pos := Some(Mount(dev, path))];
      }
    }

    /** `fs_mount` */
    method MountDevice(dev: Device, mountpoint: string)
      requires Valid() && dev.rootdir in dirs && mountpoint != "" && NoNul(mountpoint)
      requires rootdevice != null && FindDevice(mounts, dev, 0) == 16 ==> Namespace.Traverse(View(), mountpoint) != null
      modifies this`rootdevice, this`mounts, dirs`childs
      ensures Valid() && View() == Mounted(old(View()), dev, mountpoint)
    {
      if rootdevice == null && mountpoint != "/" { return; }
      if rootdevice == null {
        rootdevice := dev;
      } else {
        var known := FindMount(dev);
        if known != 16 { return; }
        var dir := Traverse(mountpoint);
        assert NodeShape(View().graph, dir);
        var pos := FindFreeChild(dir);
        if pos == 16 { return; }
        SetChild(dir, pos, dev.rootdir);
      }
      Record(dev, mountpoint);
    }

    /** The loop of `fs_unmount`. */
    method FindHolder(dir: Directory, held: Directory) returns (i: nat)
      requires |dir.childs| == 16
      ensures i == FindSlot(dir.childs, held, 0)
    {
      i := 0;
      while i < 16
        invariant 0 <= i <= 16 && FindSlot(dir.childs, held, 0) == FindSlot(dir.childs, held, i)
      {
        if dir.childs[i] == held { break; }
        i := i + 1;
      }
    }

    /** Forgets a mount and empties its slot. */
    method Clear(pos: nat, dir: Directory, child: nat)
      requires Valid() && dir in View().graph && NodeShape(View().graph, dir) && pos < 16 && child < 16
      modifies this`mounts, dirs`childs
      ensures Valid()
      ensures View() == old(View()).(graph := WithChild(old(View()).graph, dir, child, null),
                                     mounts := old(View()).mounts[pos := None])
    {
      mounts := mounts[pos := None];
      SetChild(dir, child, null);
    }

    /** `fs_unmount` */
    method UnmountDevice(dev: Device)
      requires Valid()
      requires forall j :: 0 <= j < 16 && mounts[j].Some? ==> mounts[j].value.path != "" && NoNul(mounts[j].value.path)
      requires var k := FindDevice(mounts, dev, 0); k < 16 ==> Namespace.Traverse(View(), mounts[k].value.path) != null
      modifies this`mounts, dirs`childs
      ensures Valid() && View() == Unmounted(old(View()), dev)
    {
      var pos := FindMount(dev);
      if pos == 16 { return; }
      var dir := Traverse(mounts[pos].value.path);
      assert NodeShape(View().graph, dir);
      var child := FindHolder(dir, dev.rootdir);
      if child != 16 {
        UnmountedIs(View(), dev, pos, dir, child);
        Clear(pos, dir, child);
      }
    }

    /** The first loop of `dumpdir`, with the directories it prints as its result. */
    method DumpDir(dir: Directory, ghost t: NamespaceTree.Tree, ghost bound: nat) returns (printed: seq<Directory>)
      requires Valid() && dir in dirs && TreeOk(View().graph, t) && RankBound(t, bound)
      ensures printed == Dump(View().graph, t, bound, dir, 0)
      decreases bound - (assert RankOf(t, View().graph, dir); t.rank[dir])
    {
      ghost var g := View().graph;
      assert NodeShape(g, dir);
      printed := [];
      for i := 0 to 16
        invariant printed + Dump(g, t, bound, dir, i) == Dump(g, t, bound, dir, 0)
      {
        assert NodeShape(g, dir) && HoldsAt(g, t, dir, i);
        if dir.childs[i] != null {
          assert ChildKnown(g, g[dir].childs[i]) && HangsAt(g, t, g[dir].childs[i]);
          var below := DumpDir(dir.childs[i], t, bound);
          printed := printed + [dir.childs[i]] + below;
        }
      }
    }
  }
}
