/**
 POSIX path handling as Python's `posixpath` and `pathlib` perform it:
 `basename`, `dirname`, `join`, `normpath`, `splitext` and `Path.suffix`/`stem`.
 */
module Paths {
  import Text

  /** `p.rfind(c)`: the last index of `c`, or -1. */
  function RFind(p: string, c: char): (r: int)
    ensures -1 <= r < |p|
    ensures r >= 0 ==> p[r] == c
    ensures forall i :: r < i < |p| ==> p[i] != c
  {
    if |p| == 0 then -1
    else if p[|p| - 1] == c then |p| - 1
    else RFind(p[..|p| - 1], c)
  }

  /** `os.path.basename(p)`: everything after the last slash. */
  function Basename(p: string): (r: string)
    ensures '/' !in r
    ensures EndsWith(p, r)
  {
    var i := RFind(p, '/') + 1;
    assert forall k :: 0 <= k < |p[i..]| ==> p[i..][k] == p[i + k];
    p[i..]
  }

  predicate EndsWith(s: string, suffix: string)
  {
    Text.EndsWith(s, suffix)
  }

  function RStripSlashes(s: string): (r: string)
    ensures |r| <= |s| && r == s[..|r|]
    ensures r == [] || r[|r| - 1] != '/'
  {
    if |s| > 0 && s[|s| - 1] == '/' then RStripSlashes(s[..|s| - 1]) else s
  }

  predicate AllSlashes(s: string)
  {
    forall i :: 0 <= i < |s| ==> s[i] == '/'
  }

  /** `os.path.dirname(p)`: everything up to the last slash, with trailing
      slashes removed unless that would leave nothing but the root. */
  function Dirname(p: string): (r: string)
    ensures |r| <= |p|
  {
    var head := p[..RFind(p, '/') + 1];
    if |head| > 0 && !AllSlashes(head) then RStripSlashes(head) else head
  }

  /** `os.path.join(a, b)`. */
  function Join(a: string, b: string): string
  {
    if |b| > 0 && b[0] == '/' then b
    else if |a| == 0 || a[|a| - 1] == '/' then a + b
    else a + "/" + b
  }

  /** A single path component that `normpath` keeps as it is. */
  predicate ValidName(n: string)
  {
    |n| > 0 && '/' !in n && n != "." && n != ".."
  }

  /** A normalised absolute path: "/" or "/c1/.../cn" with valid components. */
  predicate Canonical(p: string)
  {
    |p| >= 1 && p[0] == '/'
    && (p == "/" || forall i :: 0 <= i < |Text.Split(p[1..], '/')| ==> ValidName(Text.Split(p[1..], '/')[i]))
  }

  /** The component loop of `posixpath.normpath`. */
  function NormComps(comps: seq<string>, rooted: bool, acc: seq<string>): seq<string>
    decreases |comps|
  {
    if |comps| == 0 then acc
    else
      var c := comps[0];
      if c == "" || c == "." then NormComps(comps[1..], rooted, acc)
      else if c != ".." || (!rooted && |acc| == 0) || (|acc| > 0 && acc[|acc| - 1] == "..") then
        NormComps(comps[1..], rooted, acc + [c])
      else if |acc| > 0 then NormComps(comps[1..], rooted, acc[..|acc| - 1])
      else NormComps(comps[1..], rooted, acc)
  }

  /** `os.path.normpath(p)`. */
  function NormPath(p: string): string
  {
    if |p| == 0 then "."
    else
      var slashes :=
        if p[0] != '/' then 0
        else if |p| >= 2 && p[1] == '/' && !(|p| >= 3 && p[2] == '/') then 2
        else 1;
      var body := Text.Join(NormComps(Text.Split(p, '/'), slashes > 0, []), "/");
      var r := Text.Repeat('/', slashes) + body;
      if |r| == 0 then "." else r
  }

  lemma {:induction false} NormCompsValid(comps: seq<string>, acc: seq<string>)
    requires forall i :: 0 <= i < |comps| ==> ValidName(comps[i])
    ensures NormComps(comps, true, acc) == acc + comps
    decreases |comps|
  {
    if |comps| > 0 {
      NormCompsValid(comps[1..], acc + [comps[0]]);
      assert acc + [comps[0]] + comps[1..] == acc + comps;
    }
  }

  /** A normalised absolute path is its own `normpath`, so looking it up
      after normalisation finds the key it was stored under. */
  lemma NormPathRoot()
    ensures NormPath("/") == "/"
  {
    var p := "/";
    assert Text.IndexOf(p, '/') == 0;
    assert Text.Split(p, '/') == [""] + Text.Split("", '/') by {
      assert p[..0] == "" && p[1..] == "";
    }
    assert Text.Split(p, '/') == ["", ""];
    assert NormComps(["", ""], true, []) == NormComps([""], true, []) by {
      assert ["", ""][1..] == [""];
    }
    assert NormComps([""], true, []) == NormComps([], true, []) by {
      assert [""][1..] == [];
    }
    assert Text.Repeat('/', 1) == "/";
  }

  /** A normalised absolute path is its own `normpath`, so looking it up
      after normalisation finds the key it was stored under. */
  lemma NormPathCanonical(p: string)
    requires Canonical(p)
    ensures NormPath(p) == p
  {
    if p == "/" {
      NormPathRoot();
    } else {
      var comps := Text.Split(p[1..], '/');
      assert Text.IndexOf(p, '/') == 0;
      assert Text.Split(p, '/') == [""] + comps by {
        assert p[..0] == "" && p[1..] == p[0 + 1..];
      }
      NormPathShape(p);
      assert NormComps([""] + comps, true, []) == NormComps(comps, true, []) by {
        assert ([""] + comps)[1..] == comps;
      }
      NormCompsValid(comps, []);
      Text.JoinSplit(p[1..], '/');
      assert Text.Repeat('/', 1) == "/";
      assert NormComps(Text.Split(p, '/'), true, []) == comps;
      assert Text.Join(comps, "/") == p[1..];
      assert p == "/" + p[1..];
    }
  }

  /** The child path `parent/name` that create, mkdir and symlink link under `name`. */
  function Child(parent: string, name: string): string
  {
    Join(parent, name)
  }

  /** Linking a valid name under a normalised directory gives a normalised path. */
  lemma ChildCanonical(parent: string, name: string)
    requires Canonical(parent) && ValidName(name)
    ensures Canonical(Child(parent, name))
  {
    if parent == "/" {
      ChildOfRoot(name);
    } else {
      LastComponentNonEmpty(parent);
      var c := Child(parent, name);
      assert c == parent + "/" + name;
      assert c[1..] == parent[1..] + "/" + name;
      AllValidSnoc(parent[1..], name);
    }
  }

  lemma ChildOfRoot(name: string)
    requires ValidName(name)
    ensures Canonical(Child("/", name))
  {
    var c := Child("/", name);
    assert c == "/" + name && c[1..] == name;
    Text.IndexOfAbsent(name, '/');
    assert Text.Split(name, '/') == [name];
  }

  lemma AllValidSnoc(t: string, name: string)
    requires forall i :: 0 <= i < |Text.Split(t, '/')| ==> ValidName(Text.Split(t, '/')[i])
    requires ValidName(name)
    ensures forall i :: 0 <= i < |Text.Split(t + "/" + name, '/')| ==> ValidName(Text.Split(t + "/" + name, '/')[i])
  {
    var comps := Text.Split(t, '/');
    var all := comps + [name];
    Text.JoinSplit(t, '/');
    Text.JoinSnoc(comps, name, "/");
    assert Text.Join(all, "/") == t + "/" + name;
    assert forall i :: 0 <= i < |all| ==> ValidName(all[i]) by {
      forall i | 0 <= i < |all| ensures ValidName(all[i]) {
        if i < |comps| { assert all[i] == comps[i]; }
      }
    }
    Text.SplitJoin(all, '/');
  }

  lemma {:induction false} RFindAppend(a: string, name: string)
    requires '/' !in name
    ensures RFind(a + "/" + name, '/') == |a|
    decreases |name|
  {
    var s := a + "/" + name;
    if |name| > 0 {
      assert s[..|s| - 1] == a + "/" + name[..|name| - 1];
      RFindAppend(a, name[..|name| - 1]);
    } else {
      assert s[|s| - 1] == '/';
    }
  }

  /** `dirname` and `basename` split a child path back into its parts. */
  lemma ChildParts(parent: string, name: string)
    requires Canonical(parent) && ValidName(name)
    ensures Basename(Child(parent, name)) == name
    ensures Dirname(Child(parent, name)) == parent
  {
    var c := Child(parent, name);
    if parent == "/" {
      assert c == "/" + name;
      assert c == "" + "/" + name;
      RFindAppend("", name);
      assert c[..1] == "/";
      assert c[1..] == name;
    } else {
      assert parent[|parent| - 1] != '/' by {
        LastComponentNonEmpty(parent);
      }
      assert c == parent + "/" + name;
      RFindAppend(parent, name);
      var head := c[..|parent| + 1];
      assert head == parent + "/";
      assert !AllSlashes(head) by {
        NormPathShape(parent);
        assert head[1] == parent[1];
      }
      assert RStripSlashes(head) == parent by {
        assert head[..|head| - 1] == parent;
      }
      assert c[|parent| + 1..] == name;
    }
  }

  /** Every normalised path other than the root is a valid name linked under
      a normalised parent, and that parent (its `dirname`, `Path.parent`) is
      strictly shorter: walking up from a normalised path reaches "/". */
  lemma CanonicalParent(p: string)
    requires Canonical(p) && p != "/"
    ensures Canonical(Dirname(p)) && ValidName(Basename(p))
    ensures p == Child(Dirname(p), Basename(p))
    ensures |Dirname(p)| < |p|
  {
    var parent, name := SplitLast(p);
    if parent == "/" {
      assert Child(parent, name) == "/" + name;
    } else {
      LastComponentNonEmpty(parent);
      assert Child(parent, name) == parent + "/" + name;
    }
    ChildParts(parent, name);
  }

  /** A normalised path other than the root, cut at its last slash. */
  lemma SplitLast(p: string) returns (parent: string, name: string)
    requires Canonical(p) && p != "/"
    ensures Canonical(parent) && ValidName(name)
    ensures parent == "/" ==> p == "/" + name
    ensures parent != "/" ==> p == parent + "/" + name
  {
    var comps := Text.Split(p[1..], '/');
    Text.JoinSplit(p[1..], '/');
    assert p == "/" + Text.Join(comps, "/");
    parent, name := LastOf(comps);
  }

  lemma LastOf(comps: seq<string>) returns (parent: string, name: string)
    requires |comps| >= 1
    requires forall i :: 0 <= i < |comps| ==> ValidName(comps[i])
    ensures Canonical(parent) && ValidName(name)
    ensures parent == "/" ==> "/" + Text.Join(comps, "/") == "/" + name
    ensures parent != "/" ==> "/" + Text.Join(comps, "/") == parent + "/" + name
  {
    var n := |comps|;
    name := comps[n - 1];
    if n == 1 {
      parent := "/";
    } else {
      var init := comps[..n - 1];
      assert comps == init + [name];
      Text.JoinSnoc(init, name, "/");
      parent := "/" + Text.Join(init, "/");
      InitCanonical(init);
    }
  }

  /** The path made of separator-free valid components is normalised. */
  lemma InitCanonical(init: seq<string>)
    requires |init| >= 1
    requires forall i :: 0 <= i < |init| ==> ValidName(init[i])
    ensures Canonical("/" + Text.Join(init, "/")) && "/" + Text.Join(init, "/") != "/"
  {
    var j := Text.Join(init, "/");
    var parent := "/" + j;
    assert parent[1..] == j;
    Text.SplitJoin(init, '/');
    if |init| > 1 {
      Text.JoinCons(init[0], init[1..], "/");
      assert [init[0]] + init[1..] == init;
    }
  }

  lemma NormPathShape(p: string)
    requires Canonical(p) && p != "/"
    ensures |p| >= 2 && p[1] != '/'
  {
    assert |p| >= 2;
    var t := p[1..];
    var comps := Text.Split(t, '/');
    assert ValidName(comps[0]);
  }

  lemma LastComponentNonEmpty(p: string)
    requires Canonical(p) && p != "/"
    ensures p[|p| - 1] != '/'
  {
    var t := p[1..];
    var comps := Text.Split(t, '/');
    NormPathShape(p);
    Text.JoinSplit(t, '/');
    var last := comps[|comps| - 1];
    assert ValidName(last);
    JoinEndsWithLast(comps, '/');
    assert Text.EndsWith(t, last);
    assert t[|t| - 1] == last[|last| - 1];
    assert '/' !in last;
  }

  lemma {:induction false} JoinEndsWithLast(parts: seq<string>, c: char)
    requires |parts| >= 1
    ensures Text.EndsWith(Text.Join(parts, [c]), parts[|parts| - 1])
    decreases |parts|
  {
    if |parts| > 1 {
      JoinEndsWithLast(parts[1..], c);
      var rest := Text.Join(parts[1..], [c]);
      assert Text.Join(parts, [c]) == parts[0] + [c] + rest;
    }
  }

  /** `os.path.splitext(p)[1]`: from the last dot of the final component, provided
      some character other than a dot precedes it in that component. */
  function Ext(p: string): (r: string)
    ensures r == [] || (r[0] == '.' && EndsWith(p, r))
  {
    var name := Basename(p);
    var dot := RFind(name, '.');
    if dot > 0 && exists k :: 0 <= k < dot && name[k] != '.' then
      assert EndsWith(name, name[dot..]);
      name[dot..]
    else []
  }

  /** Where `Path(p).suffix` starts within the name: at its last dot, unless
      that dot is the first or the last character; otherwise at the end. */
  function SuffixStart(name: string): (i: nat)
    ensures i <= |name|
    ensures i < |name| ==> 0 < i < |name| - 1 && name[i] == '.'
    ensures forall k :: i < k < |name| ==> name[k] != '.'
  {
    var dot := RFind(name, '.');
    if 0 < dot < |name| - 1 then dot else |name|
  }
}
