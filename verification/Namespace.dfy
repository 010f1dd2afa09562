/** The directory graph of the kernel's filesystem as a value: what the path walk finds, and what `fs_mkdir`,
    `fs_mount` and `fs_unmount` make of it. */
module Namespace {
  import opened Wrappers
  import opened CStrings
  import opened PathNames

  /** `device_t` */
  class Device {
    const name: string
    const rootdir: Directory

    constructor (name: string, rootdir: Directory)
      ensures this.name == name && this.rootdir == rootdir
    {
      this.name, this.rootdir := name, rootdir;
    }
  }

  /** `directory_t`; the child slots hold null when free. */
  class Directory {
    var name: string
    var device: Device?
    var childs: seq<Directory?>

    constructor (name: string)
      ensures this.name == name && device == null && childs == NoChilds()
    {
      this.name, device, childs := name, null, NoChilds();
    }
  }

  function NoChilds(): (s: seq<Directory?>)
    ensures |s| == 16 && forall i :: 0 <= i < 16 ==> s[i] == null
  {
    seq(16, i => null)
  }

  datatype Node = Node(name: string, device: Device, childs: seq<Directory?>)

  type Graph = map<Directory, Node>

  /** Sixteen slots, and what is in them is in the graph. */
  predicate NodeShape(g: Graph, d: Directory)
    requires d in g
  {
    && |g[d].childs| == 16 && NoNul(g[d].name)
    && forall i :: 0 <= i < 16 ==> ChildKnown(g, g[d].childs[i])
  }

  predicate ChildKnown(g: Graph, c: Directory?) {
    c == null || c in g
  }

  predicate GraphOk(g: Graph) {
    forall d <- g :: NodeShape(g, d)
  }

  // ---- fs_traverse

  /** The first slot from i on whose directory's name compares equal to the n characters at `curr`; 16 for none. */
  function FindChild(g: Graph, childs: seq<Directory?>, curr: string, n: int, i: nat): (r: nat)
    requires i <= |childs| && forall j :: 0 <= j < |childs| ==> ChildKnown(g, childs[j])
    ensures i <= r <= |childs|
    ensures r < |childs| ==> childs[r] != null
    decreases |childs| - i
  {
    if i == |childs| then i
    else
      assert ChildKnown(g, childs[i]);
      if childs[i] != null && StrNCmp(g[childs[i]].name, curr, n) == 0 then i
      else FindChild(g, childs, curr, n, i + 1)
  }

  /** The loop of `fs_traverse` with `pos` at the beginning of a component. */
  function Walk(g: Graph, dir: Directory, path: string, pos: nat): (r: Directory?)
    requires GraphOk(g) && dir in g && pos <= |path|
    ensures ChildKnown(g, r)
    decreases |path| - pos
  {
    assert NodeShape(g, dir);
    var e := EndOf(path, pos);
    var i := FindChild(g, g[dir].childs, path[pos..], e - pos, 0);
    if i == 16 then null
    else
      assert ChildKnown(g, g[dir].childs[i]);
      if e == |path| then g[dir].childs[i] else Walk(g, g[dir].childs[i], path, e + 1)
  }

  /** One turn of the loop of `fs_traverse`. */
  lemma WalkStep(g: Graph, dir: Directory, path: string, pos: nat)
    requires GraphOk(g) && dir in g && pos <= |path| && NodeShape(g, dir)
    ensures var e := EndOf(path, pos);
            var i := FindChild(g, g[dir].childs, path[pos..], e - pos, 0);
            var next := if i < 16 then g[dir].childs[i] else null;
            && ChildKnown(g, next)
            && Walk(g, dir, path, pos) == if next == null || e == |path| then next else Walk(g, next, path, e + 1)
  {
    var i := FindChild(g, g[dir].childs, path[pos..], EndOf(path, pos) - pos, 0);
    assert i < 16 ==> ChildKnown(g, g[dir].childs[i]);
  }

  // ---- the resolver it is meant to be

  predicate Matches(g: Graph, c: Directory?, comp: string)
    requires ChildKnown(g, c)
  {
    c != null && IsPrefix(comp, g[c].name)
  }

  /** The lowest slot whose directory's name has the component as a prefix; 16 for none. */
  function LowestMatch(g: Graph, childs: seq<Directory?>, comp: string, i: nat): (r: nat)
    requires i <= |childs| && forall j :: 0 <= j < |childs| ==> ChildKnown(g, childs[j])
    ensures i <= r <= |childs|
    ensures forall j :: i <= j < r ==> ChildKnown(g, childs[j]) && !Matches(g, childs[j], comp)
    ensures r < |childs| ==> ChildKnown(g, childs[r]) && Matches(g, childs[r], comp)
    decreases |childs| - i
  {
    if i == |childs| then i
    else
      assert ChildKnown(g, childs[i]);
      if Matches(g, childs[i], comp) then i else LowestMatch(g, childs, comp, i + 1)
  }

  function Resolve(g: Graph, dir: Directory, comps: seq<string>): (r: Directory?)
    requires GraphOk(g) && dir in g
    ensures ChildKnown(g, r)
    decreases |comps|
  {
    if comps == [] then dir
    else
      assert NodeShape(g, dir);
      var i := LowestMatch(g, g[dir].childs, comps[0], 0);
      if i == 16 then null
      else
        assert ChildKnown(g, g[dir].childs[i]);
        Resolve(g, g[dir].childs[i], comps[1..])
  }

  lemma {:induction false} FindChildIsLowestMatch(g: Graph, childs: seq<Directory?>, curr: string, n: nat, i: nat)
    requires i <= |childs| && forall j :: 0 <= j < |childs| ==> ChildKnown(g, childs[j])
    requires GraphOk(g) && NoNul(curr) && 1 <= n <= |curr|
    ensures FindChild(g, childs, curr, n, i) == LowestMatch(g, childs, curr[..n], i)
    decreases |childs| - i
  {
    if i < |childs| {
      assert ChildKnown(g, childs[i]);
      if childs[i] != null {
        assert NodeShape(g, childs[i]);
        StrNCmpIsPrefix(g[childs[i]].name, curr, n);
      }
      FindChildIsLowestMatch(g, childs, curr, n, i + 1);
    }
  }

  /** On a path without empty components the walk finds what the resolver finds. */
  lemma {:induction false} WalkIsResolve(g: Graph, dir: Directory, path: string, pos: nat)
    requires GraphOk(g) && dir in g && pos <= |path| && NoNul(path) && GoodNames(Split(path, pos))
    ensures Walk(g, dir, path, pos) == Resolve(g, dir, Split(path, pos))
    decreases |path| - pos
  {
    assert NodeShape(g, dir);
    var e, comps := EndOf(path, pos), Split(path, pos);
    var n := e - pos;
    assert GoodName(comps[0]) && comps[0] == path[pos..e] == path[pos..][..n];
    FindChildIsLowestMatch(g, g[dir].childs, path[pos..], n, 0);
    var i := LowestMatch(g, g[dir].childs, comps[0], 0);
    if i < 16 {
      assert ChildKnown(g, g[dir].childs[i]);
      if e < |path| {
        assert comps[1..] == Split(path, e + 1);
        forall j | 0 <= j < |comps| - 1 ensures GoodName(comps[1..][j]) { assert GoodName(comps[j + 1]); }
        WalkIsResolve(g, g[dir].childs[i], path, e + 1);
      } else {
        assert comps[1..] == [];
      }
    }
  }

  /** The comparison of no characters goes by the first one. */
  lemma StrNCmpOfNothing(s1: string, s2: string, n: int)
    requires n <= 1
    ensures StrNCmp(s1, s2, n) == At(s1, 0) as int - At(s2, 0) as int
  {
  }

  /** A child for an empty component: its name is empty at the end of the path and begins with a slash elsewhere. */
  predicate MatchesNothing(g: Graph, c: Directory?, last: bool)
    requires ChildKnown(g, c)
  {
    c != null && if last then g[c].name == "" else g[c].name != "" && g[c].name[0] == '/'
  }

  lemma {:induction false} FindChildOfNothing(g: Graph, childs: seq<Directory?>, path: string, pos: nat, i: nat)
    requires i <= |childs| && forall j :: 0 <= j < |childs| ==> ChildKnown(g, childs[j])
    requires GraphOk(g) && pos <= |path| && NoNul(path) && EndOf(path, pos) == pos
    ensures var r := FindChild(g, childs, path[pos..], 0, i);
            && (forall j :: i <= j < r ==> !MatchesNothing(g, childs[j], pos == |path|))
            && (r < |childs| ==> MatchesNothing(g, childs[r], pos == |path|))
    decreases |childs| - i
  {
    if i < |childs| {
      assert ChildKnown(g, childs[i]);
      EndOfIsFirstSlash(path, pos);
      if childs[i] != null {
        assert NodeShape(g, childs[i]);
        StrNCmpOfNothing(g[childs[i]].name, path[pos..], 0);
      }
      FindChildOfNothing(g, childs, path, pos, i + 1);
    }
  }

  /** Directories have names, and not with a slash in front. */
  predicate Named(g: Graph) {
    forall d <- g :: NamedAt(g, d)
  }

  predicate NamedAt(g: Graph, d: Directory)
    requires d in g
  {
    g[d].name != "" && g[d].name[0] != '/'
  }

  lemma NothingIsNotFound(g: Graph, childs: seq<Directory?>, path: string, pos: nat)
    requires forall j :: 0 <= j < |childs| ==> ChildKnown(g, childs[j])
    requires GraphOk(g) && Named(g) && pos <= |path| && NoNul(path) && EndOf(path, pos) == pos
    ensures FindChild(g, childs, path[pos..], 0, 0) == |childs|
  {
    FindChildOfNothing(g, childs, path, pos, 0);
    forall j | 0 <= j < |childs| ensures ChildKnown(g, childs[j]) && !MatchesNothing(g, childs[j], pos == |path|) {
      assert ChildKnown(g, childs[j]) && (childs[j] != null ==> NamedAt(g, childs[j]));
    }
  }

  lemma EmptyIsHereOrLater(path: string, pos: nat)
    requires pos <= |path| && "" in Split(path, pos)
    ensures EndOf(path, pos) == pos || (EndOf(path, pos) < |path| && "" in Split(path, EndOf(path, pos) + 1))
  {
  }

  /** Where directories have names, a path with an empty component leads nowhere: "/a/" and "/a//b" are not other
      ways to write "/a" and "/a/b". */
  lemma {:induction false} EmptyComponentLeadsNowhere(g: Graph, dir: Directory, path: string, pos: nat)
    requires GraphOk(g) && Named(g) && dir in g && pos <= |path| && NoNul(path) && "" in Split(path, pos)
    ensures Walk(g, dir, path, pos) == null
    decreases |path| - pos
  {
    assert NodeShape(g, dir);
    var e, childs := EndOf(path, pos), g[dir].childs;
    var i := FindChild(g, childs, path[pos..], e - pos, 0);
    WalkStep(g, dir, path, pos);
    if e == pos {
      NothingIsNotFound(g, childs, path, pos);
    } else {
      EmptyIsHereOrLater(path, pos);
      if i < 16 {
        assert ChildKnown(g, childs[i]);
        EmptyComponentLeadsNowhere(g, childs[i], path, e + 1);
      }
    }
  }

  // ---- the filesystem

  datatype Mount = Mount(dev: Device, path: string)

  datatype Fs = Fs(graph: Graph, rootdevice: Device?, mounts: seq<Option<Mount>>)

  predicate FsOk(s: Fs) {
    && GraphOk(s.graph) && |s.mounts| == 16
    && (s.rootdevice != null ==> s.rootdevice.rootdir in s.graph)
  }

  /** `fs_traverse`: the first character is skipped, whatever it is. */
  function Traverse(s: Fs, path: string): (r: Directory?)
    requires FsOk(s) && path != ""
    ensures ChildKnown(s.graph, r)
  {
    if s.rootdevice == null then null
    else if |path| == 1 then s.rootdevice.rootdir
    else Walk(s.graph, s.rootdevice.rootdir, path, 1)
  }

  /** The first free slot from i on; 16 for none. */
  function FindFree(childs: seq<Directory?>, i: nat): (r: nat)
    requires i <= |childs|
    ensures i <= r <= |childs| && (r < |childs| ==> childs[r] == null)
    ensures forall j :: i <= j < r ==> childs[j] != null
    decreases |childs| - i
  {
    if i == |childs| || childs[i] == null then i else FindFree(childs, i + 1)
  }

  function WithChild(g: Graph, dir: Directory, i: nat, child: Directory?): (r: Graph)
    requires dir in g && i < |g[dir].childs|
  {
    g[dir := g[dir].(childs := g[dir].childs[i := child])]
  }

  /** `fs_mkdir`; `added` is the directory it allocates. The parent must resolve. */
  function Mkdir(s: Fs, path: string, added: Directory): (r: (Fs, bool))
    requires FsOk(s) && path != "" && added !in s.graph && NoNul(path)
    requires s.rootdevice != null ==> Traverse(s, BaseDir(path)) != null
    ensures FsOk(r.0)
  {
    if s.rootdevice == null then (s, false)
    else
      var parent := Traverse(s, BaseDir(path));
      assert NodeShape(s.graph, parent);
      var i := FindFree(s.graph[parent].childs, 0);
      if i == 16 then (s, false)
      else
        var g := s.graph[added := Node(FileName(path), s.graph[parent].device, NoChilds())];
        LinkKeepsShape(s.graph, g, added, parent, i, added);
        (s.(graph := WithChild(g, parent, i, added)), true)
  }

  /** The new directory has a name unless the path ends in a slash or is a single character. */
  lemma MkdirKeepsNamedIff(s: Fs, path: string, added: Directory)
    requires FsOk(s) && path != "" && added !in s.graph && NoNul(path) && Named(s.graph)
    requires s.rootdevice != null && Traverse(s, BaseDir(path)) != null && Mkdir(s, path, added).1
    ensures Named(Mkdir(s, path, added).0.graph) <==> |path| > 1 && path[|path| - 1] != '/'
  {
    var r := Mkdir(s, path, added).0.graph;
    assert r[added].name == FileName(path);
    BaseAndNameOfPath(path);
    forall d <- r | d != added ensures NamedAt(r, d) { assert NamedAt(s.graph, d); }
    if FileName(path) != "" {
      assert FileName(path)[0] in FileName(path) && path[|path| - 1] == FileName(path)[|FileName(path)| - 1];
      assert NamedAt(r, added);
    }
  }

  lemma LinkKeepsShape(was: Graph, g: Graph, added: Directory, dir: Directory, i: nat, child: Directory?)
    requires GraphOk(was) && dir in was && i < 16 && added in g
    requires forall d <- was :: d in g && (d != added ==> g[d] == was[d])
    requires forall d <- g :: d == added || d in was
    requires NodeShape(g, added) && ChildKnown(g, child)
    ensures dir in g && |g[dir].childs| == 16 && GraphOk(WithChild(g, dir, i, child))
  {
    assert NodeShape(was, dir);
    assert |g[dir].childs| == 16;
    var r := WithChild(g, dir, i, child);
    forall d <- r ensures NodeShape(r, d) {
      if d != added { assert NodeShape(was, d); }
      forall j | 0 <= j < 16 ensures ChildKnown(r, r[d].childs[j]) {
        if d != added { assert ChildKnown(was, was[d].childs[j]); } else { assert ChildKnown(g, g[d].childs[j]); }
      }
    }
  }

  /** The slot of mountinfo that holds the device; 16 for none. */
  function FindDevice(mounts: seq<Option<Mount>>, dev: Device, i: nat): (r: nat)
    requires i <= |mounts|
    ensures i <= r <= |mounts| && (r < |mounts| ==> mounts[r].Some? && mounts[r].value.dev == dev)
    ensures forall j :: i <= j < r ==> mounts[j].None? || mounts[j].value.dev != dev
    decreases |mounts| - i
  {
    if i == |mounts| || (mounts[i].Some? && mounts[i].value.dev == dev) then i else FindDevice(mounts, dev, i + 1)
  }

  function FindFreeDevice(mounts: seq<Option<Mount>>, i: nat): (r: nat)
    requires i <= |mounts|
    ensures i <= r <= |mounts| && (r < |mounts| ==> mounts[r].None?)
    ensures forall j :: i <= j < r ==> mounts[j].Some?
    decreases |mounts| - i
  {
    if i == |mounts| || mounts[i].None? then i else FindFreeDevice(mounts, i + 1)
  }

  function Recorded(s: Fs, dev: Device, path: string): (r: Fs)
    requires FsOk(s)
    ensures FsOk(r)
  {
    var i := FindFreeDevice(s.mounts, 0);
    if i == 16 then s else s.(mounts := s.mounts[i := Some(Mount(dev, path))])
  }

  /** `fs_mount`. The mount point must resolve once there is a root device. */
  function Mounted(s: Fs, dev: Device, path: string): (r: Fs)
    requires FsOk(s) && dev.rootdir in s.graph && path != ""
    requires s.rootdevice != null && FindDevice(s.mounts, dev, 0) == 16 ==> Traverse(s, path) != null
    ensures FsOk(r)
  {
    if s.rootdevice == null && path != "/" then s
    else if s.rootdevice == null then Recorded(s.(rootdevice := dev), dev, path)
    else if FindDevice(s.mounts, dev, 0) != 16 then s
    else
      var dir := Traverse(s, path);
      assert NodeShape(s.graph, dir);
      var i := FindFree(s.graph[dir].childs, 0);
      if i == 16 then s
      else
        assert NodeShape(s.graph, dev.rootdir);
        LinkKeepsShape(s.graph, s.graph, dev.rootdir, dir, i, dev.rootdir);
        Recorded(s.(graph := WithChild(s.graph, dir, i, dev.rootdir)), dev, path)
  }

  /** The first device must be mounted at "/" and becomes the root; anything else before it is refused. */
  lemma FirstMountIsRoot(s: Fs, dev: Device, path: string)
    requires FsOk(s) && dev.rootdir in s.graph && path != "" && s.rootdevice == null
    ensures Mounted(s, dev, path).rootdevice == if path == "/" then dev else null
    ensures Mounted(s, dev, path).graph == s.graph && (path != "/" ==> Mounted(s, dev, path) == s)
  {
  }

  /** The first slot from i on that holds `child`; 16 for none. */
  function FindSlot(childs: seq<Directory?>, child: Directory, i: nat): (r: nat)
    requires i <= |childs|
    ensures i <= r <= |childs| && (r < |childs| ==> childs[r] == child)
    ensures forall j :: i <= j < r ==> childs[j] != child
    decreases |childs| - i
  {
    if i == |childs| || childs[i] == child then i else FindSlot(childs, child, i + 1)
  }

  /** `fs_unmount`: the mount point is resolved again, by its path. */
  function Unmounted(s: Fs, dev: Device): (r: Fs)
    requires FsOk(s)
    requires forall j :: 0 <= j < 16 && s.mounts[j].Some? ==> s.mounts[j].value.path != ""
    requires var k := FindDevice(s.mounts, dev, 0); k < 16 ==> Traverse(s, s.mounts[k].value.path) != null
    ensures FsOk(r)
  {
    var k := FindDevice(s.mounts, dev, 0);
    if k == 16 then s
    else
      var dir := Traverse(s, s.mounts[k].value.path);
      assert NodeShape(s.graph, dir);
      var i := FindSlot(s.graph[dir].childs, dev.rootdir, 0);
      if i == 16 then s
      else
        LinkKeepsShape(s.graph, s.graph, dir, dir, i, null);
        s.(graph := WithChild(s.graph, dir, i, null), mounts := s.mounts[k := None])
  }
}
