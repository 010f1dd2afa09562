/** Paths: their components, and how `fs_basedir` and `fs_filename` split them. */
module PathNames {
  import opened CStrings

  /** The end of the component that begins at `pos`. */
  function EndOf(path: string, pos: nat): (e: nat)
    requires pos <= |path|
    ensures pos <= e <= |path|
    decreases |path| - pos
  {
    if pos == |path| || path[pos] == '/' then pos else EndOf(path, pos + 1)
  }

  /** It is the first slash from there on, or the end of the path. */
  lemma {:induction false} EndOfIsFirstSlash(path: string, pos: nat)
    requires pos <= |path|
    ensures var e := EndOf(path, pos);
            (e < |path| ==> path[e] == '/') && forall i :: pos <= i < e ==> path[i] != '/'
    decreases |path| - pos
  {
    if pos < |path| && path[pos] != '/' { EndOfIsFirstSlash(path, pos + 1); }
  }

  /** The components of a path from `pos` on. */
  function Split(path: string, pos: nat): (comps: seq<string>)
    requires pos <= |path|
    ensures comps != []
    decreases |path| - pos
  {
    var e := EndOf(path, pos);
    if e == |path| then [path[pos..e]] else [path[pos..e]] + Split(path, e + 1)
  }

  /** The components after their slashes: "/a/b". */
  function Join(comps: seq<string>): (path: string)
    ensures comps != [] ==> |path| > 0 && path[0] == '/'
  {
    if comps == [] then "" else Join(comps[..|comps| - 1]) + "/" + comps[|comps| - 1]
  }

  predicate GoodName(c: string) {
    c != "" && '/' !in c && NoNul(c)
  }

  predicate GoodNames(comps: seq<string>) {
    forall i :: 0 <= i < |comps| ==> GoodName(comps[i])
  }

  lemma EndIs(path: string, pos: nat, e: nat)
    requires pos <= e <= |path| && (forall i :: pos <= i < e ==> path[i] != '/') && (e < |path| ==> path[e] == '/')
    ensures EndOf(path, pos) == e
  {
    EndOfIsFirstSlash(path, pos);
  }

  /** Joining in front instead of behind. */
  lemma {:induction false} JoinFront(c: string, comps: seq<string>)
    ensures Join([c] + comps) == "/" + c + Join(comps)
  {
    var all := [c] + comps;
    if comps == [] {
      assert all[..|all| - 1] == [];
    } else {
      var front, last := comps[..|comps| - 1], comps[|comps| - 1];
      JoinFront(c, front);
      assert all[..|all| - 1] == [c] + front && all[|all| - 1] == last;
      assert Join(all) == "/" + c + Join(front) + "/" + last;
      assert Join(comps) == Join(front) + "/" + last;
    }
  }

  /** What is in front of the components of a path does not matter to them. */
  lemma {:induction false} SplitShift(a: string, path: string, pos: nat)
    requires pos <= |path|
    ensures Split(a + path, |a| + pos) == Split(path, pos)
    decreases |path| - pos
  {
    var e := EndOf(path, pos);
    var whole := a + path;
    EndOfIsFirstSlash(path, pos);
    EndIs(whole, |a| + pos, |a| + e);
    assert whole[|a| + pos..|a| + e] == path[pos..e];
    if e < |path| { SplitShift(a, path, e + 1); }
  }

  /** Components come back from a joined path. */
  lemma {:induction false} SplitOfJoin(comps: seq<string>)
    requires comps != [] && GoodNames(comps)
    ensures Split(Join(comps), 1) == comps
  {
    var c, rest := comps[0], comps[1..];
    assert comps == [c] + rest;
    JoinFront(c, rest);
    var path := "/" + c + Join(rest);
    EndIs(path, 1, 1 + |c|);
    assert path[1..1 + |c|] == c;
    if rest == [] {
      assert path == "/" + c;
    } else {
      SplitOfJoin(rest);
      assert path == ("/" + c) + Join(rest);
      SplitShift("/" + c, Join(rest), 1);
    }
  }

  lemma CutAtSlash(path: string, pos: nat, e: nat)
    requires pos <= e < |path| && path[e] == '/'
    ensures "/" + path[pos..e] + ("/" + path[e + 1..]) == "/" + path[pos..]
  {
    assert path[pos..] == path[pos..e] + path[e..] && path[e..] == [path[e]] + path[e + 1..];
  }

  /** A path comes back from its components. */
  lemma {:induction false} JoinOfSplit(path: string, pos: nat)
    requires pos <= |path|
    ensures Join(Split(path, pos)) == "/" + path[pos..]
    decreases |path| - pos
  {
    var e := EndOf(path, pos);
    EndOfIsFirstSlash(path, pos);
    var c, rest := path[pos..e], if e == |path| then [] else Split(path, e + 1);
    assert Split(path, pos) == [c] + rest;
    JoinFront(c, rest);
    if e < |path| {
      JoinOfSplit(path, e + 1);
      CutAtSlash(path, pos, e);
    } else {
      assert c + "" == path[pos..];
    }
  }

  // ---- basedir and filename

  /** The last slash at or before k, or 0. */
  function LastSlash(path: string, k: nat): (i: nat)
    requires k <= |path|
    ensures i <= k
    ensures i == 0 || (i < |path| && path[i] == '/')
    ensures forall j :: i < j <= k && j < |path| ==> path[j] != '/'
  {
    if k == 0 || (k < |path| && path[k] == '/') then k else LastSlash(path, k - 1)
  }

  function BaseDir(path: string): string
    requires path != ""
  {
    var k := LastSlash(path, |path|);
    if k == 0 then path[..1] else path[..k]
  }

  function FileName(path: string): string
    requires path != ""
  {
    path[LastSlash(path, |path|) + 1..]
  }

  /** The last component is the file name, and the ones before it are the base. */
  lemma BaseAndNameOfJoin(comps: seq<string>)
    requires comps != [] && GoodNames(comps)
    ensures Join(comps) != "" && FileName(Join(comps)) == comps[|comps| - 1]
    ensures BaseDir(Join(comps)) == if |comps| == 1 then "/" else Join(comps[..|comps| - 1])
    ensures (if |comps| == 1 then "" else BaseDir(Join(comps))) + "/" + FileName(Join(comps)) == Join(comps)
  {
    var path, n := Join(comps), |comps| - 1;
    var front := Join(comps[..n]);
    assert path == front + "/" + comps[n];
    var k := LastSlash(path, |path|);
    assert path[|front|] == '/';
    assert forall j :: |front| < j < |path| ==> path[j] == comps[n][j - |front| - 1];
    assert k == |front|;
    assert path[..k] == front && path[k + 1..] == comps[n];
  }

  /** Of any path: the name is what follows the last slash, the base what is in front of it. A path without one
      behind its first character is split there. */
  lemma BaseAndNameOfPath(path: string)
    requires path != ""
    ensures '/' !in FileName(path)
    ensures if '/' in path[1..] then BaseDir(path) + "/" + FileName(path) == path
            else BaseDir(path) == path[..1] && FileName(path) == path[1..]
  {
    var k := LastSlash(path, |path|);
    assert 0 < k < |path| ==> path[1..][k - 1] == path[k];
    if '/' in path[1..] {
      var j :| 0 <= j < |path| - 1 && path[1..][j] == '/';
      assert path[j + 1] == '/';
      assert path == path[..k] + [path[k]] + path[k + 1..];
    }
  }

  // ---- the loops

  method Basedir(path: string) returns (base: string)
    requires path != ""
    ensures base == BaseDir(path)
  {
    var k := |path|;
    while At(path, k) != '/' && k > 0
      invariant 0 <= k <= |path| && LastSlash(path, |path|) == LastSlash(path, k)
      decreases k
    {
      k := k - 1;
    }
    base := if k == 0 then path[..1] else path[..k];
  }

  method Filename(path: string) returns (name: string)
    requires path != ""
    ensures name == FileName(path)
  {
    var k := |path|;
    while At(path, k) != '/' && k != 0
      invariant 0 <= k <= |path| && LastSlash(path, |path|) == LastSlash(path, k)
      decreases k
    {
      k := k - 1;
    }
    name := path[k + 1..];
  }
}
