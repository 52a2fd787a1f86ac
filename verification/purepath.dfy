/**
 `pathlib.PurePosixPath` as the context builders use it: the anchor and the
 components a path parses into, `parts`, `parent`, `name`, `suffix`, and
 `match` against a wildcard pattern.
 */
module PurePath {
  import opened Wrappers
  import Text
  import Paths
  import Fnmatch
  import Nodes

  /** The root a path starts with: "//" for exactly two leading slashes, "/"
      for one or more than two, nothing for a relative path. */
  function Anchor(p: string): (r: string)
    ensures r == "" || r == "/" || r == "//"
    ensures r != "" <==> |p| > 0 && p[0] == '/'
  {
    if |p| == 0 || p[0] != '/' then ""
    else if |p| >= 2 && p[1] == '/' && !(|p| >= 3 && p[2] == '/') then "//"
    else "/"
  }

  /** The components parsing keeps: empty and "." segments are dropped. */
  function Components(segs: seq<string>): (r: seq<string>)
    ensures forall i :: 0 <= i < |r| ==> r[i] != "" && r[i] != "." && '/' !in r[i]
    ensures |r| <= |segs|
  {
    if |segs| == 0 then []
    else if segs[0] == "" || segs[0] == "." || '/' in segs[0] then Components(segs[1..])
    else [segs[0]] + Components(segs[1..])
  }

  lemma {:induction false} ComponentsOfPlain(segs: seq<string>)
    requires forall i :: 0 <= i < |segs| ==> segs[i] != "" && segs[i] != "." && '/' !in segs[i]
    ensures Components(segs) == segs
  {
    if |segs| > 0 {
      ComponentsOfPlain(segs[1..]);
    }
  }

  /** The components after the anchor. */
  function Tail(p: string): (r: seq<string>)
    ensures forall i :: 0 <= i < |r| ==> r[i] != "" && r[i] != "." && '/' !in r[i]
  {
    Components(Text.Split(p, '/'))
  }

  /** `Path(p).parts`: the anchor, when there is one, then the components. */
  function Parts(p: string): (r: seq<string>)
    ensures Anchor(p) == "" ==> r == Tail(p)
    ensures Anchor(p) != "" ==> r == [Anchor(p)] + Tail(p)
  {
    if Anchor(p) == "" then Tail(p) else [Anchor(p)] + Tail(p)
  }

  /** `str(Path(p))`: the anchor and the components joined by "/", or "." when
      both are empty. */
  function Str(anchor: string, comps: seq<string>): (r: string)
    requires forall i :: 0 <= i < |comps| ==> comps[i] != ""
    ensures r != ""
  {
    if anchor == "" && |comps| == 0 then "."
    else
      assert |comps| > 0 ==> Text.Join(comps, "/")[..|comps[0]|] == comps[0];
      anchor + Text.Join(comps, "/")
  }

  /** `str(Path(p).parent)`: the path without its last component; a path
      without components is its own parent. */
  function Parent(p: string): (r: string)
    ensures r != ""
  {
    var t := Tail(p);
    if |t| == 0 then Str(Anchor(p), t) else Str(Anchor(p), t[..|t| - 1])
  }

  /** `Path(p).name`: the last component, or "" when there is none. */
  function Name(p: string): (r: string)
    ensures '/' !in r
  {
    var t := Tail(p);
    if |t| == 0 then "" else t[|t| - 1]
  }

  /** `Path(p).suffix`: the name from its last dot, unless that dot is the
      name's first or last character. */
  function Suffix(p: string): (r: string)
    ensures r == "" || (|r| >= 2 && r[0] == '.' && Text.EndsWith(Name(p), r))
  {
    var n := Name(p);
    n[Paths.SuffixStart(n)..]
  }

  /** Splitting a string with one more separated piece at its end. */
  lemma {:induction false} SplitSnoc(s: string, t: string, c: char)
    requires c !in t
    ensures Text.Split(s + [c] + t, c) == Text.Split(s, c) + [t]
    decreases |s|
  {
    var k := Text.IndexOf(s, c);
    var u := s + [c] + t;
    if k == |s| {
      Text.IndexOfPrefix(s, t, c);
      assert u[..|s|] == s && u[|s| + 1..] == t;
      Text.IndexOfAbsent(t, c);
    } else {
      assert s == s[..k] + [c] + s[k + 1..];
      assert u == s[..k] + [c] + (s[k + 1..] + [c] + t);
      Text.IndexOfPrefix(s[..k], s[k + 1..] + [c] + t, c);
      assert u[..k] == s[..k] && u[k + 1..] == s[k + 1..] + [c] + t;
      SplitSnoc(s[k + 1..], t, c);
    }
  }

  /** Parsing one more segment adds it when it is a component. */
  lemma {:induction false} ComponentsSnoc(segs: seq<string>, x: string)
    ensures Components(segs + [x]) == Components(segs) + (if x == "" || x == "." || '/' in x then [] else [x])
    decreases |segs|
  {
    if |segs| == 0 {
      assert segs + [x] == [x];
    } else {
      assert (segs + [x])[1..] == segs[1..] + [x];
      ComponentsSnoc(segs[1..], x);
    }
  }

  /** `Path(p).stem`: the name without its suffix. */
  function Stem(p: string): (r: string)
    ensures r + Suffix(p) == Name(p)
  {
    var n := Name(p);
    n[..Paths.SuffixStart(n)]
  }

  /** A single component is its own name. */
  lemma NameOfPlain(n: string)
    requires n != "" && n != "." && '/' !in n
    ensures Name(n) == n
  {
    Text.IndexOfAbsent(n, '/');
    assert Text.Split(n, '/') == [n];
  }

  /** A further component becomes the path's name. */
  lemma NameOfChild(p: string, c: string)
    requires c != "" && c != "." && '/' !in c
    ensures Name(p + "/" + c) == c
  {
    assert p + "/" + c == p + ['/'] + c;
    SplitSnoc(p, c, '/');
    ComponentsSnoc(Text.Split(p, '/'), c);
  }

  /** A further "." component changes neither the name nor the suffix. */
  lemma NameSkipsDot(p: string)
    ensures Name(p + "/.") == Name(p) && Suffix(p + "/.") == Suffix(p)
  {
    assert p + "/." == p + ['/'] + ".";
    SplitSnoc(p, ".", '/');
    ComponentsSnoc(Text.Split(p, '/'), ".");
    assert Tail(p + "/.") == Tail(p);
  }

  /** Whether the last `|pats|` parts match the patterns component by component. */
  predicate TailMatches(parts: seq<string>, pats: seq<string>)
    requires |pats| <= |parts|
  {
    forall j :: 0 <= j < |pats| ==> Fnmatch.Matches(pats[j], parts[|parts| - |pats| + j])
  }

  /** `Path(p).match(pattern)`: a pattern without components raises
      `ValueError`; an anchored pattern must match the whole path, anchor
      included; a relative one is matched against the path from the right. */
  function Match(p: string, pattern: string): (r: Result<bool, Nodes.Error>)
    ensures r.Err? <==> Parts(pattern) == []
    ensures r.Err? ==> r.error == Nodes.ValueError
    ensures r == Ok(true) ==> |Parts(pattern)| <= |Parts(p)|
    ensures r == Ok(true) ==> TailMatches(Parts(p), Parts(pattern))
  {
    var pats := Parts(pattern);
    var parts := Parts(p);
    if pats == [] then Err(Nodes.ValueError)
    else if Anchor(pattern) != "" && (Anchor(pattern) != Anchor(p) || |pats| != |parts|) then Ok(false)
    else if |pats| > |parts| then Ok(false)
    else Ok(TailMatches(parts, pats))
  }

  /** A one-component relative pattern is matched against the name alone. */
  lemma MatchOneComponent(p: string, pattern: string)
    requires Anchor(pattern) == "" && |Tail(pattern)| == 1
    requires Tail(p) != []
    ensures Match(p, pattern) == Ok(Fnmatch.Matches(Tail(pattern)[0], Name(p)))
  {
    var parts := Parts(p);
    assert parts[|parts| - 1] == Name(p);
  }
}
