/**
 The touch command's path checks: whether a path lies inside a mounted
 filesystem (some directory from the path up to the root holds a `.touchfs`
 marker), and the split of the command's arguments into paths inside and
 outside such a mount.

 Resolving symlinks (`os.path.realpath`), making a path absolute
 (`os.path.abspath`) and asking whether a path exists are calls into the
 operating system; they are parameters here. `resolve` answers `None` where
 `realpath` raises, which the check turns into "not inside".
 */
module TouchPaths {
  import opened Wrappers
  import Paths
  import Config

  /** The name of the marker entry every mount root holds. */
  const Marker := ".touchfs"

  /** `dirname` keeps a prefix of its argument. */
  lemma DirnamePrefix(p: string)
    ensures Paths.Dirname(p) == p[..|Paths.Dirname(p)|]
  {
  }

  /** `dirname` either leaves a path as it is or shortens it. */
  lemma DirnameShrinks(p: string)
    ensures Paths.Dirname(p) == p || |Paths.Dirname(p)| < |p|
  {
    DirnamePrefix(p);
  }

  /** The directories the upward walk looks in before the root: the path
      itself, then each `dirname` in turn, until "/" or until `dirname`
      stops changing the path. */
  function Upward(p: string): (r: seq<string>)
    ensures forall i :: 0 <= i < |r| ==> r[i] != "/"
    ensures p != "/" ==> |r| > 0 && r[0] == p
    decreases |p|
  {
    if p == "/" then []
    else if Paths.Dirname(p) == p then [p]
    else
      DirnameShrinks(p);
      [p] + Upward(Paths.Dirname(p))
  }

  /** Some directory of `dirs` holds the marker. */
  predicate Marked(dirs: seq<string>, present: string -> bool)
  {
    exists d :: d in dirs && present(Paths.Join(d, Marker))
  }

  /** What `is_path_in_touchfs` answers: the resolved path, a directory on
      its walk up, or the root holds the marker; an error answers false. */
  predicate InTouchfs(path: string, resolve: string -> Option<string>, present: string -> bool)
  {
    match resolve(path)
    case None => false
    case Some(a) => Marked(Upward(a), present) || present(Paths.Join("/", Marker))
  }

  /** `is_path_in_touchfs(path)`: walks up from the resolved path, looking
      for the marker in each directory, and finally in the root. */
  method IsPathInTouchfs(path: string, resolve: string -> Option<string>, present: string -> bool)
    returns (found: bool)
    ensures found == InTouchfs(path, resolve, present)
  {
    var resolved := resolve(path);
    if resolved.None? {
      return false;
    }
    var current := resolved.value;
    ghost var seen: seq<string> := [];
    while current != "/"
      invariant Upward(resolved.value) == seen + Upward(current)
      invariant !Marked(seen, present)
      decreases |current|
    {
      if present(Paths.Join(current, Marker)) {
        assert current in Upward(resolved.value);
        return true;
      }
      var parent := Paths.Dirname(current);
      if parent == current {
        seen := seen + [current];
        break;
      }
      DirnameShrinks(current);
      seen := seen + [current];
      current := parent;
    }
    assert seen == Upward(resolved.value);
    return present(Paths.Join("/", Marker));
  }

  /** From a normalised absolute path, the walk looks in exactly the
      directories between the path and the root, and then in the root:
      every directory on the chain from "/" down to the path. */
  lemma {:induction false} UpwardIsChain(a: string)
    requires Paths.Canonical(a)
    ensures forall c :: c in Upward(a) <==> c in Config.Chain(a) && c != "/"
    decreases |a|
  {
    if a != "/" {
      Paths.CanonicalParent(a);
      UpwardIsChain(Paths.Dirname(a));
    }
  }

  /** The walk from a normalised path finds a marker exactly when some
      directory on the chain from "/" down to the path holds one. */
  lemma ChainMarked(a: string, present: string -> bool)
    requires Paths.Canonical(a)
    ensures Marked(Upward(a), present) || present(Paths.Join("/", Marker)) <==>
            exists c :: c in Config.Chain(a) && present(Paths.Join(c, Marker))
  {
    var up := Upward(a);
    var chain := Config.Chain(a);
    UpwardIsChain(a);
    if !Marked(up, present) && present(Paths.Join("/", Marker)) {
      assert chain[0] in chain;
    }
  }

  /** A path that resolves to a normalised one is inside a mount exactly
      when some directory from the root down to it holds the marker. */
  lemma InTouchfsIff(path: string, resolve: string -> Option<string>, present: string -> bool)
    requires resolve(path).Some? && Paths.Canonical(resolve(path).value)
    ensures InTouchfs(path, resolve, present) <==>
            exists c :: c in Config.Chain(resolve(path).value) && present(Paths.Join(c, Marker))
  {
    ChainMarked(resolve(path).value, present);
  }

  /** The paths of `xs` on which `test` answers `want`, in their order. */
  function Keep(xs: seq<string>, test: string -> bool, want: bool): (r: seq<string>)
    ensures forall y :: y in r ==> y in xs && test(y) == want
  {
    if xs == [] then []
    else if test(xs[0]) == want then [xs[0]] + Keep(xs[1..], test, want)
    else Keep(xs[1..], test, want)
  }

  lemma {:induction false} KeepSnoc(xs: seq<string>, x: string, test: string -> bool, want: bool)
    ensures Keep(xs + [x], test, want) == Keep(xs, test, want) + (if test(x) == want then [x] else [])
  {
    if xs != [] {
      assert (xs + [x])[1..] == xs[1..] + [x];
      KeepSnoc(xs[1..], x, test, want);
    }
  }

  /** The two sides of a split hold every path once between them, and a
      path that passes the test is on the first side. */
  lemma {:induction false} KeepPartitions(xs: seq<string>, test: string -> bool)
    ensures multiset(Keep(xs, test, true)) + multiset(Keep(xs, test, false)) == multiset(xs)
    ensures forall y :: y in xs && test(y) ==> y in Keep(xs, test, true)
    ensures forall y :: y in xs && !test(y) ==> y in Keep(xs, test, false)
  {
    if xs != [] {
      KeepPartitions(xs[1..], test);
      assert xs == [xs[0]] + xs[1..];
    }
  }

  /** The absolute forms of the arguments, in order. */
  function Absolutes(paths: seq<string>, absolute: string -> string): (r: seq<string>)
    ensures |r| == |paths| && forall i :: 0 <= i < |paths| ==> r[i] == absolute(paths[i])
  {
    if paths == [] then [] else [absolute(paths[0])] + Absolutes(paths[1..], absolute)
  }

  /** `categorize_paths(paths)`: the absolute form of each argument, split
      by whether it lies inside a mount; each side keeps the arguments'
      order. */
  method CategorizePaths(paths: seq<string>, absolute: string -> string,
                         resolve: string -> Option<string>, present: string -> bool)
    returns (inside: seq<string>, outside: seq<string>)
    ensures inside == Keep(Absolutes(paths, absolute), p => InTouchfs(p, resolve, present), true)
    ensures outside == Keep(Absolutes(paths, absolute), p => InTouchfs(p, resolve, present), false)
    ensures multiset(inside) + multiset(outside) == multiset(Absolutes(paths, absolute))
  {
    var test := p => InTouchfs(p, resolve, present);
    var all := Absolutes(paths, absolute);
    inside, outside := [], [];
    for i := 0 to |all|
      invariant inside == Keep(all[..i], test, true)
      invariant outside == Keep(all[..i], test, false)
    {
      var abs := all[i];
      var found := IsPathInTouchfs(abs, resolve, present);
      assert all[..i + 1] == all[..i] + [abs];
      KeepSnoc(all[..i], abs, test, true);
      KeepSnoc(all[..i], abs, test, false);
      if found {
        inside := inside + [abs];
      } else {
        outside := outside + [abs];
      }
    }
    assert all[..|all|] == all;
    KeepPartitions(all, test);
  }
}
