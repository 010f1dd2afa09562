/** What can be seen of a change: a new directory under its path, an unmount after a mount, and the dump. */
module NamespaceEffects {
  import opened Wrappers
  import opened CStrings
  import opened PathNames
  import opened Namespace
  import opened NamespaceTree

  /** In every run from boot on, two ways to the same directory are the same way. */
  lemma RunsGiveTrees(ops: seq<Op>, d: Directory, a: seq<nat>, b: seq<nat>)
    requires RunEnabled(Empty(), ops)
    ensures FsOk(Run(Empty(), ops))
    ensures var g := Run(Empty(), ops).graph;
            d in g && Follow(g, d, a) == Follow(g, d, b) && Follow(g, d, a) != null ==> a == b
  {
    EmptyIsSound();
    var t := RunKeepsSound(Empty(), Tree(map[], map[]), ops);
    var g := Run(Empty(), ops).graph;
    if d in g && Follow(g, d, a) == Follow(g, d, b) && Follow(g, d, a) != null { AtMostOneWay(g, t, d, a, b); }
  }

  // ---- the walk to a directory does not look at that directory's own slots

  predicate SameAt(g: Graph, h: Graph, end: Directory, d: Directory) {
    d in g ==> d in h && h[d].name == g[d].name && (d != end ==> h[d].childs == g[d].childs)
  }

  /** Two graphs that differ at most in what hangs in `end` and in directories only the second one has. */
  predicate SameBut(g: Graph, h: Graph, end: Directory) {
    forall d <- g :: SameAt(g, h, end, d)
  }

  lemma {:induction false} SameFindChild(g: Graph, h: Graph, end: Directory, childs: seq<Directory?>, curr: string,
                                         n: int, i: nat)
    requires i <= |childs| && SameBut(g, h, end)
    requires forall j :: 0 <= j < |childs| ==> ChildKnown(g, childs[j]) && ChildKnown(h, childs[j])
    ensures FindChild(g, childs, curr, n, i) == FindChild(h, childs, curr, n, i)
    decreases |childs| - i
  {
    if i < |childs| {
      assert ChildKnown(g, childs[i]);
      assert childs[i] != null ==> SameAt(g, h, end, childs[i]);
      SameFindChild(g, h, end, childs, curr, n, i + 1);
    }
  }

  lemma {:induction false} SameWalk(g: Graph, t: Tree, h: Graph, dir: Directory, path: string, pos: nat, r: Directory)
    requires GraphOk(g) && TreeOk(g, t) && GraphOk(h) && dir in g && pos <= |path|
    requires r == Walk(g, dir, path, pos) && SameBut(g, h, r)
    ensures dir in h && Walk(h, dir, path, pos) == r
    decreases |path| - pos
  {
    WalkStaysBelow(g, t, dir, path, pos);
    assert SameAt(g, h, r, dir);
    var next, e := SameStep(g, h, dir, path, pos, r);
    if next != null && e < |path| { SameWalk(g, t, h, next, path, e + 1, r); }
  }

  /** One turn of the walk in both graphs. */
  lemma {:induction false} SameStep(g: Graph, h: Graph, dir: Directory, path: string, pos: nat, end: Directory)
    returns (next: Directory?, e: nat)
    requires GraphOk(g) && GraphOk(h) && dir in g && dir in h && pos <= |path| && SameBut(g, h, end)
    requires h[dir].childs == g[dir].childs
    ensures pos <= e <= |path| && ChildKnown(g, next) && ChildKnown(h, next)
    ensures Walk(g, dir, path, pos) == if next == null || e == |path| then next else Walk(g, next, path, e + 1)
    ensures Walk(h, dir, path, pos) == if next == null || e == |path| then next else Walk(h, next, path, e + 1)
  {
    assert NodeShape(g, dir) && NodeShape(h, dir);
    WalkStep(g, dir, path, pos);
    WalkStep(h, dir, path, pos);
    e := EndOf(path, pos);
    SameFindChild(g, h, end, g[dir].childs, path[pos..], e - pos, 0);
    var i := FindChild(g, g[dir].childs, path[pos..], e - pos, 0);
    next := if i < 16 then g[dir].childs[i] else null;
  }

  lemma SameTraverse(s: Fs, t: Tree, r: Fs, path: string)
    requires Sound(s, t) && FsOk(r) && path != "" && r.rootdevice == s.rootdevice && Traverse(s, path) != null
    requires SameBut(s.graph, r.graph, Traverse(s, path))
    ensures Traverse(r, path) == Traverse(s, path)
  {
    if |path| > 1 { SameWalk(s.graph, t, r.graph, s.rootdevice.rootdir, path, 1, Traverse(s, path)); }
  }

  lemma FindDeviceAt(mounts: seq<Option<Mount>>, k: nat, m: Mount)
    requires k < |mounts| && FindDevice(mounts, m.dev, 0) == |mounts|
    ensures FindDevice(mounts[k := Some(m)], m.dev, 0) == k
  {
    var r := mounts[k := Some(m)];
    var j := FindDevice(r, m.dev, 0);
    assert r[k] == Some(m) && forall x :: 0 <= x < |r| && x != k ==> r[x] == mounts[x];
  }

  lemma FindSlotAt(childs: seq<Directory?>, i: nat, child: Directory)
    requires i < |childs| && forall j :: 0 <= j < |childs| ==> childs[j] != child
    ensures FindSlot(childs[i := child], child, 0) == i
  {
    var r := childs[i := child];
    var j := FindSlot(r, child, 0);
    assert r[i] == child && forall x :: 0 <= x < |r| && x != i ==> r[x] == childs[x];
  }

  lemma NotAChild(g: Graph, t: Tree, dir: Directory, child: Directory)
    requires GraphOk(g) && TreeOk(g, t) && dir in g && child !in t.parent && NodeShape(g, dir)
    ensures forall j :: 0 <= j < 16 ==> g[dir].childs[j] != child
  {
    forall j: nat | j < 16 ensures g[dir].childs[j] != child { assert HoldsAt(g, t, dir, j); }
  }

  /** What a mount that succeeds does. */
  lemma MountedIs(s: Fs, dev: Device, path: string)
    requires Enabled(s, MountAtPath(dev, path)) && Mounted(s, dev, path) != s && s.rootdevice != null
    ensures var dir := Traverse(s, path);
            && dir in s.graph && NodeShape(s.graph, dir) && FindDevice(s.mounts, dev, 0) == 16
            && var i, k := FindFree(s.graph[dir].childs, 0), FindFreeDevice(s.mounts, 0);
               && i < 16 && k < 16
               && Mounted(s, dev, path)
                  == s.(graph := WithChild(s.graph, dir, i, dev.rootdir),
                        mounts := s.mounts[k := Some(Mount(dev, path))])
  {
    assert NodeShape(s.graph, Traverse(s, path));
  }

  /** A successful mount is undone by the unmount. */
  lemma MountThenUnmount(s: Fs, t: Tree, dev: Device, path: string)
    requires Sound(s, t) && Enabled(s, MountAtPath(dev, path)) && Mounted(s, dev, path) != s && s.rootdevice != null
    ensures Enabled(Mounted(s, dev, path), Unmount(dev)) && Unmounted(Mounted(s, dev, path), dev) == s
  {
    MountedIs(s, dev, path);
    var dir, r := Traverse(s, path), Mounted(s, dev, path);
    SameTraverse(s, t, r, path);
    UnmountedDeviceIsOnTop(s, t, dev);
    NotAChild(s.graph, t, dir, dev.rootdir);
    UnlinkUndoesLink(s, dir, FindFree(s.graph[dir].childs, 0), dev, path, FindFreeDevice(s.mounts, 0), r);
  }

  lemma UnlinkUndoesLink(s: Fs, dir: Directory, i: nat, dev: Device, path: string, k: nat, r: Fs)
    requires FsOk(s) && FsOk(r) && dir in s.graph && NodeShape(s.graph, dir) && path != "" && i < 16 && k < 16
    requires s.graph[dir].childs[i] == null && s.mounts[k].None? && FindDevice(s.mounts, dev, 0) == 16
    requires forall j :: 0 <= j < 16 ==> s.graph[dir].childs[j] != dev.rootdir
    requires forall j :: 0 <= j < 16 && s.mounts[j].Some? ==> s.mounts[j].value.path != ""
    requires r == s.(graph := WithChild(s.graph, dir, i, dev.rootdir), mounts := s.mounts[k := Some(Mount(dev, path))])
    requires Traverse(r, path) == dir
    ensures Enabled(r, Unmount(dev)) && Unmounted(r, dev) == s
  {
    var childs := s.graph[dir].childs;
    FindDeviceAt(s.mounts, k, Mount(dev, path));
    FindSlotAt(childs, i, dev.rootdir);
    assert childs[i := dev.rootdir][i := null] == childs && r.mounts[k := None] == s.mounts;
    assert WithChild(r.graph, dir, i, null) == s.graph;
  }

  // ---- unmounting later

  /** `fs_unmount` takes a mounted device out exactly when its recorded path still leads to the directory its root
      hangs in. Otherwise it changes nothing, and the device stays mounted. */
  lemma UnmountsIff(s: Fs, t: Tree, dev: Device)
    requires Sound(s, t) && Enabled(s, Unmount(dev)) && FindDevice(s.mounts, dev, 0) < 16
    ensures var k, root := FindDevice(s.mounts, dev, 0), dev.rootdir;
            var dir := Traverse(s, s.mounts[k].value.path);
            && (Unmounted(s, dev) != s <==> root in t.parent && t.parent[root].dir == dir)
            && (Unmounted(s, dev) != s ==>
                  && dir in s.graph && t.parent[root].i < |s.graph[dir].childs|
                  && Unmounted(s, dev)
                     == s.(graph := WithChild(s.graph, dir, t.parent[root].i, null), mounts := s.mounts[k := None]))
  {
    var k, root := FindDevice(s.mounts, dev, 0), dev.rootdir;
    var dir := Traverse(s, s.mounts[k].value.path);
    assert NodeShape(s.graph, dir);
    var childs := s.graph[dir].childs;
    var i := FindSlot(childs, root, 0);
    if i < 16 { assert HoldsAt(s.graph, t, dir, i); }
    if root in t.parent && t.parent[root].dir == dir {
      assert HangsAt(s.graph, t, root);
      assert childs[t.parent[root].i] == root;
    }
    assert i < 16 ==> Unmounted(s, dev).mounts[k] != s.mounts[k];
  }

  lemma OneName(s: Fs, name: string)
    requires FsOk(s) && s.rootdevice != null && GoodName(name)
    ensures Traverse(s, "/" + name) == Resolve(s.graph, s.rootdevice.rootdir, [name])
  {
    assert [name][..0] == [];
    assert Join([name]) == "" + "/" + name == "/" + name;
    TraverseIsResolve(s, [name]);
  }

  /** A device mounted at "/m" stays mounted for good once a directory "mm" has been made in a lower slot: the path
      leads there. */
  lemma ShadowedMountStays(s: Fs, dev: Device, a: Directory)
    requires FsOk(s) && s.rootdevice != null && NodeShape(s.graph, s.rootdevice.rootdir)
    requires forall j :: 0 <= j < 16 && s.mounts[j].Some? ==> s.mounts[j].value.path != ""
    requires FindDevice(s.mounts, dev, 0) < 16 && s.mounts[FindDevice(s.mounts, dev, 0)].value.path == "/m"
    requires s.graph[s.rootdevice.rootdir].childs[0] == a && a in s.graph && s.graph[a].name == "mm"
    requires NodeShape(s.graph, a) && FindSlot(s.graph[a].childs, dev.rootdir, 0) == 16
    ensures Traverse(s, "/m") == a && Enabled(s, Unmount(dev)) && Unmounted(s, dev) == s
  {
    var g, root := s.graph, s.rootdevice.rootdir;
    OneName(s, "m");
    assert "/" + "m" == "/m";
    assert "mm"[..1] == "m";
    assert Matches(g, a, "m") && ["m"][1..] == [];
    assert LowestMatch(g, g[root].childs, "m", 0) == 0;
  }

  /** Two devices, one mounted at "/" and the other at "/d", which leads to the root of the first. Once the first is
      unmounted the path leads nowhere, and `fs_unmount` of the second follows a null pointer. */
  lemma NestedMountLosesItsPath(s: Fs, outer: Device, i: nat)
    requires Enabled(s, Unmount(outer)) && s.rootdevice != null && FindDevice(s.mounts, outer, 0) < 16
    requires Traverse(s, s.mounts[FindDevice(s.mounts, outer, 0)].value.path) == s.rootdevice.rootdir
    requires NodeShape(s.graph, s.rootdevice.rootdir)
    requires i == FindSlot(s.graph[s.rootdevice.rootdir].childs, outer.rootdir, 0) < 16
    requires forall j :: 0 <= j < 16 && j != i ==>
               var c := s.graph[s.rootdevice.rootdir].childs[j];
               ChildKnown(s.graph, c) && !Matches(s.graph, c, "d")
    ensures Traverse(Unmounted(s, outer), "/d") == null
  {
    var r, root := Unmounted(s, outer), s.rootdevice.rootdir;
    assert r.graph == WithChild(s.graph, root, i, null);
    assert NodeShape(r.graph, root);
    var childs := r.graph[root].childs;
    OneName(r, "d");
    assert "/" + "d" == "/d";
    forall j | 0 <= j < 16 ensures ChildKnown(r.graph, childs[j]) && !Matches(r.graph, childs[j], "d") {
      assert j != i ==> childs[j] == s.graph[root].childs[j];
      assert childs[j] != null ==> r.graph[childs[j]].name == s.graph[childs[j]].name;
    }
    assert LowestMatch(r.graph, childs, "d", 0) == 16;
  }

  // ---- paths and the resolver

  lemma {:induction false} JoinNoNul(comps: seq<string>)
    requires GoodNames(comps)
    ensures NoNul(Join(comps))
  {
    if comps != [] { JoinNoNul(comps[..|comps| - 1]); }
  }

  function PathOf(comps: seq<string>): string {
    if comps == [] then "/" else Join(comps)
  }

  /** `fs_traverse` finds what the resolver finds for the components of the path. */
  lemma TraverseIsResolve(s: Fs, comps: seq<string>)
    requires FsOk(s) && s.rootdevice != null && GoodNames(comps)
    ensures Traverse(s, PathOf(comps)) == Resolve(s.graph, s.rootdevice.rootdir, comps)
  {
    if comps != [] {
      JoinNoNul(comps);
      SplitOfJoin(comps);
      assert comps[|comps| - 1] != "";
      WalkIsResolve(s.graph, s.rootdevice.rootdir, Join(comps), 1);
    }
  }

  lemma {:induction false} ResolveInTwo(g: Graph, d: Directory, a: seq<string>, b: seq<string>)
    requires GraphOk(g) && d in g
    ensures var r := Resolve(g, d, a); Resolve(g, d, a + b) == if r == null then null else Resolve(g, r, b)
    decreases |a|
  {
    if a == [] {
      assert a + b == b;
    } else {
      assert NodeShape(g, d) && (a + b)[0] == a[0] && (a + b)[1..] == a[1..] + b;
      var i := LowestMatch(g, g[d].childs, a[0], 0);
      if i < 16 {
        assert ChildKnown(g, g[d].childs[i]);
        ResolveInTwo(g, g[d].childs[i], a[1..], b);
      }
    }
  }

  lemma BaseOfPath(comps: seq<string>)
    requires comps != [] && GoodNames(comps)
    ensures BaseDir(PathOf(comps)) == PathOf(comps[..|comps| - 1]) && FileName(PathOf(comps)) == comps[|comps| - 1]
  {
    BaseAndNameOfJoin(comps);
    assert |comps| == 1 ==> comps[..|comps| - 1] == [];
  }

  /** What `fs_mkdir` does to the graph. */
  lemma MkdirEffect(s: Fs, comps: seq<string>, added: Directory)
    requires FsOk(s) && comps != [] && GoodNames(comps) && Enabled(s, MakeDir(PathOf(comps), added))
    requires Mkdir(s, PathOf(comps), added).1
    ensures var r, parent := Mkdir(s, PathOf(comps), added).0, Traverse(s, PathOf(comps[..|comps| - 1]));
            && s.rootdevice != null && r.rootdevice == s.rootdevice
            && parent in s.graph && SameBut(s.graph, r.graph, parent) && NodeShape(s.graph, parent)
            && FindFree(s.graph[parent].childs, 0) < 16
            && r.graph[parent].childs == s.graph[parent].childs[FindFree(s.graph[parent].childs, 0) := added]
            && added in r.graph && r.graph[added].name == comps[|comps| - 1]
  {
    BaseOfPath(comps);
  }

  /** No directory in a slot below the first free one has the name as a prefix of its own. */
  predicate NoLowerMatch(g: Graph, parent: Directory, name: string)
    requires parent in g
  {
    forall j :: 0 <= j < FindFree(g[parent].childs, 0) ==>
      ChildKnown(g, g[parent].childs[j]) && !Matches(g, g[parent].childs[j], name)
  }

  lemma MkdirResolvesParent(s: Fs, t: Tree, comps: seq<string>, added: Directory)
    requires Sound(s, t) && comps != [] && GoodNames(comps) && Enabled(s, MakeDir(PathOf(comps), added))
    requires Mkdir(s, PathOf(comps), added).1
    ensures var r, parent := Mkdir(s, PathOf(comps), added).0, Traverse(s, PathOf(comps[..|comps| - 1]));
            parent in r.graph && Traverse(r, PathOf(comps)) == Resolve(r.graph, parent, [comps[|comps| - 1]])
  {
    var front := comps[..|comps| - 1];
    var r := Mkdir(s, PathOf(comps), added).0;
    MkdirEffect(s, comps, added);
    SameTraverse(s, t, r, PathOf(front));
    ResolvesThroughParent(r, comps);
  }

  /** A path leads where its last component leads from its parent. */
  lemma ResolvesThroughParent(s: Fs, comps: seq<string>)
    requires FsOk(s) && s.rootdevice != null && comps != [] && GoodNames(comps)
    requires Traverse(s, PathOf(comps[..|comps| - 1])) != null
    ensures var parent := Traverse(s, PathOf(comps[..|comps| - 1]));
            parent in s.graph && Traverse(s, PathOf(comps)) == Resolve(s.graph, parent, [comps[|comps| - 1]])
  {
    var front, name := comps[..|comps| - 1], comps[|comps| - 1];
    TraverseIsResolve(s, front);
    TraverseIsResolve(s, comps);
    assert front + [name] == comps;
    ResolveInTwo(s.graph, s.rootdevice.rootdir, front, [name]);
  }

  /** After `fs_mkdir` the path leads to the new directory exactly when no directory in a lower slot has the new
      name as a prefix of its own. */
  lemma MkdirThenResolve(s: Fs, t: Tree, comps: seq<string>, added: Directory)
    requires Sound(s, t) && comps != [] && GoodNames(comps) && Enabled(s, MakeDir(PathOf(comps), added))
    requires Mkdir(s, PathOf(comps), added).1
    ensures var r, parent := Mkdir(s, PathOf(comps), added).0, Traverse(s, PathOf(comps[..|comps| - 1]));
            && parent in s.graph
            && (Traverse(r, PathOf(comps)) == added <==> NoLowerMatch(s.graph, parent, comps[|comps| - 1]))
  {
    MkdirEffect(s, comps, added);
    MkdirResolvesParent(s, t, comps, added);
    NewChildFoundIff(s, Mkdir(s, PathOf(comps), added).0, Traverse(s, PathOf(comps[..|comps| - 1])), added,
                     comps[|comps| - 1]);
  }

  lemma NewChildFoundIff(s: Fs, r: Fs, parent: Directory, added: Directory, name: string)
    requires FsOk(s) && FsOk(r) && parent in s.graph && added !in s.graph && NodeShape(s.graph, parent)
    requires FindFree(s.graph[parent].childs, 0) < 16
    requires parent in r.graph
        && r.graph[parent].childs == s.graph[parent].childs[FindFree(s.graph[parent].childs, 0) := added]
    requires added in r.graph && r.graph[added].name == name
    requires forall d <- s.graph :: d in r.graph && r.graph[d].name == s.graph[d].name
    ensures Resolve(r.graph, parent, [name]) == added <==> NoLowerMatch(s.graph, parent, name)
  {
    var i, was, childs := FindFree(s.graph[parent].childs, 0), s.graph[parent].childs, r.graph[parent].childs;
    assert NodeShape(r.graph, parent);
    forall j | 0 <= j < 16 ensures ChildKnown(s.graph, was[j]) && ChildKnown(r.graph, childs[j]) && was[j] != added { }
    assert Matches(r.graph, childs[i], name);
    var k := LowestMatch(r.graph, childs, name, 0);
    assert k <= i;
    assert [name][1..] == [];
    assert Resolve(r.graph, parent, [name]) == childs[k];
    forall j | 0 <= j < i ensures Matches(r.graph, childs[j], name) <==> Matches(s.graph, was[j], name) { }
  }

  /** A directory "ab" in the first slot is what "a" leads to. */
  lemma PrefixIsTakenForName(g: Graph, dir: Directory, c: Directory)
    requires GraphOk(g) && dir in g && NodeShape(g, dir) && g[dir].childs[0] == c && c in g && g[c].name == "ab"
    ensures Resolve(g, dir, ["a"]) == c
  {
    assert Matches(g, c, "a") && ["a"][1..] == [];
    assert LowestMatch(g, g[dir].childs, "a", 0) == 0;
  }

  // ---- the dump

  /** The slot of d that x hangs under, at whatever depth. */
  ghost function SlotOver(g: Graph, t: Tree, x: Directory, d: Directory): (r: Option<nat>)
    requires forall c <- t.parent :: HangsAt(g, t, c)
    decreases if x in t.rank && x in t.parent then 1 + t.rank[x] else 0
  {
    if x !in t.parent then None
    else
      assert HangsAt(g, t, x);
      if t.parent[x].dir == d then Some(t.parent[x].i) else SlotOver(g, t, t.parent[x].dir, d)
  }

  lemma {:induction false} SlotOverIsBelow(g: Graph, t: Tree, x: Directory, d: Directory)
    requires TreeOk(g, t) && SlotOver(g, t, x, d).Some?
    ensures x in t.rank && d in t.rank && t.rank[d] < t.rank[x]
    ensures var i := SlotOver(g, t, x, d).value; d in g && i < |g[d].childs| && g[d].childs[i] != null
    decreases if x in t.rank && x in t.parent then 1 + t.rank[x] else 0
  {
    assert HangsAt(g, t, x);
    if t.parent[x].dir != d { SlotOverIsBelow(g, t, t.parent[x].dir, d); }
  }

  /** What hangs under slot i of d is the directory in it or hangs under that. */
  lemma {:induction false} SlotOverStep(g: Graph, t: Tree, x: Directory, d: Directory, i: nat)
    requires TreeOk(g, t) && d in g && i < 16 && i < |g[d].childs| && g[d].childs[i] != null
    ensures var c := g[d].childs[i];
            (x == c || SlotOver(g, t, x, c).Some?) <==> SlotOver(g, t, x, d) == Some(i)
    ensures SlotOver(g, t, g[d].childs[i], g[d].childs[i]).None?
    decreases if x in t.rank && x in t.parent then 1 + t.rank[x] else 0
  {
    var c := g[d].childs[i];
    assert HoldsAt(g, t, d, i) && HangsAt(g, t, c);
    if SlotOver(g, t, c, c).Some? { SlotOverIsBelow(g, t, c, c); }
    if SlotOver(g, t, d, c).Some? { SlotOverIsBelow(g, t, d, c); }
    if x in t.parent {
      assert HangsAt(g, t, x);
      if t.parent[x].dir != d { SlotOverStep(g, t, t.parent[x].dir, d, i); }
    }
  }

  ghost predicate RankBound(t: Tree, bound: nat) {
    forall d <- t.rank :: t.rank[d] <= bound
  }

  /** There are finitely many directories, so the tree has a bottom: the recursion of `dumpdir` ends. */
  lemma RanksAreBounded(t: Tree) returns (bound: nat)
    ensures RankBound(t, bound)
  {
    bound := BoundOver(t.rank, t.rank.Keys);
  }

  lemma {:induction false} BoundOver(rank: map<Directory, nat>, ds: set<Directory>) returns (bound: nat)
    requires ds <= rank.Keys
    ensures forall d <- ds :: rank[d] <= bound
    decreases |ds|
  {
    bound := 0;
    if ds != {} {
      var d :| d in ds;
      var rest := BoundOver(rank, ds - {d});
      bound := if rest < rank[d] then rank[d] else rest;
    }
  }

  /** The directories `dumpdir` prints from slot i of d on, in its order. */
  ghost function Dump(g: Graph, t: Tree, bound: nat, d: Directory, i: nat): (ds: seq<Directory>)
    requires GraphOk(g) && TreeOk(g, t) && RankBound(t, bound) && d in g && i <= 16
    decreases bound - (assert RankOf(t, g, d); t.rank[d]), 16 - i
  {
    if i == 16 then []
    else
      assert NodeShape(g, d) && HoldsAt(g, t, d, i);
      var c := g[d].childs[i];
      if c == null then Dump(g, t, bound, d, i + 1)
      else
        assert ChildKnown(g, c) && HangsAt(g, t, c);
        [c] + Dump(g, t, bound, c, 0) + Dump(g, t, bound, d, i + 1)
  }

  ghost function Times(ds: seq<Directory>, x: Directory): nat {
    if ds == [] then 0 else (if ds[0] == x then 1 else 0) + Times(ds[1..], x)
  }

  lemma {:induction false} TimesOfSum(a: seq<Directory>, b: seq<Directory>, x: Directory)
    ensures Times(a + b, x) == Times(a, x) + Times(b, x)
  {
    if a == [] {
      assert a + b == b;
    } else {
      assert (a + b)[0] == a[0] && (a + b)[1..] == a[1..] + b;
      TimesOfSum(a[1..], b, x);
    }
  }

  /** The dump of d prints every directory under d once, and nothing else. */
  lemma {:induction false} DumpPrintsOnce(g: Graph, t: Tree, bound: nat, d: Directory, i: nat, x: Directory)
    requires GraphOk(g) && TreeOk(g, t) && RankBound(t, bound) && d in g && i <= 16
    ensures Times(Dump(g, t, bound, d, i), x) ==
            if SlotOver(g, t, x, d).Some? && SlotOver(g, t, x, d).value >= i then 1 else 0
    decreases bound - (assert RankOf(t, g, d); t.rank[d]), 16 - i
  {
    if SlotOver(g, t, x, d).Some? { SlotOverIsBelow(g, t, x, d); }
    assert NodeShape(g, d);
    if i < 16 {
      assert HoldsAt(g, t, d, i);
      var c := g[d].childs[i];
      DumpPrintsOnce(g, t, bound, d, i + 1, x);
      if c != null {
        assert ChildKnown(g, c) && HangsAt(g, t, c);
        var below, rest := Dump(g, t, bound, c, 0), Dump(g, t, bound, d, i + 1);
        DumpPrintsOnce(g, t, bound, c, 0, x);
        SlotOverStep(g, t, x, d, i);
        TimesOfSum([c] + below, rest, x);
        TimesOfSum([c], below, x);
      }
    }
  }

  /** x lies over y, or a lower slot of some directory leads to x than to y. */
  ghost predicate ComesFirst(g: Graph, t: Tree, x: Directory, y: Directory)
    requires TreeOk(g, t)
  {
    SlotOver(g, t, y, x).Some? || exists e <- g :: LeadsLower(g, t, e, x, y)
  }

  ghost predicate LeadsLower(g: Graph, t: Tree, e: Directory, x: Directory, y: Directory)
    requires TreeOk(g, t)
  {
    && SlotOver(g, t, x, e).Some? && SlotOver(g, t, y, e).Some?
    && SlotOver(g, t, x, e).value < SlotOver(g, t, y, e).value
  }

  lemma {:induction false} TimesOfMember(ds: seq<Directory>, k: nat)
    requires k < |ds|
    ensures Times(ds, ds[k]) > 0
    decreases |ds|
  {
    if k > 0 { TimesOfMember(ds[1..], k - 1); }
  }

  lemma DumpedIsUnder(g: Graph, t: Tree, bound: nat, d: Directory, i: nat, k: nat)
    requires GraphOk(g) && TreeOk(g, t) && RankBound(t, bound) && d in g && i <= 16
    requires k < |Dump(g, t, bound, d, i)|
    ensures var slot := SlotOver(g, t, Dump(g, t, bound, d, i)[k], d); slot.Some? && slot.value >= i
  {
    var ds := Dump(g, t, bound, d, i);
    TimesOfMember(ds, k);
    DumpPrintsOnce(g, t, bound, d, i, ds[k]);
  }

  /** Whatever the dump prints earlier comes first: a directory before everything under it, and what a lower slot
      leads to before what a higher one does. */
  lemma {:induction false} DumpInOrder(g: Graph, t: Tree, bound: nat, d: Directory, i: nat, p: nat, q: nat)
    requires GraphOk(g) && TreeOk(g, t) && RankBound(t, bound) && d in g && i <= 16
    requires p < q < |Dump(g, t, bound, d, i)|
    ensures ComesFirst(g, t, Dump(g, t, bound, d, i)[p], Dump(g, t, bound, d, i)[q])
    decreases bound - (assert RankOf(t, g, d); t.rank[d]), 16 - i
  {
    assert NodeShape(g, d) && HoldsAt(g, t, d, i);
    var c, ds := g[d].childs[i], Dump(g, t, bound, d, i);
    if c == null {
      DumpInOrder(g, t, bound, d, i + 1, p, q);
    } else {
      assert ChildKnown(g, c) && HangsAt(g, t, c);
      var below, rest := Dump(g, t, bound, c, 0), Dump(g, t, bound, d, i + 1);
      var n := 1 + |below|;
      assert ds == [c] + below + rest;
      if p >= n {
        DumpInOrder(g, t, bound, d, i + 1, p - n, q - n);
      } else if q >= n {
        if p > 0 { DumpedIsUnder(g, t, bound, c, 0, p - 1); }
        SlotOverStep(g, t, ds[p], d, i);
        DumpedIsUnder(g, t, bound, d, i + 1, q - n);
        assert LeadsLower(g, t, d, ds[p], ds[q]);
      } else if p > 0 {
        DumpInOrder(g, t, bound, c, 0, p - 1, q - 1);
      } else {
        DumpedIsUnder(g, t, bound, c, 0, q - 1);
      }
    }
  }
}
