/**
 The file collection both `build_context` functions share: walk a directory
 tree, skip every directory whose root matches one of the exclude patterns
 that end in a slash and a star (with trailing slashes and stars stripped), and skip every file
 whose full path matches one of the other patterns. The walk itself is an
 input: one entry per directory visited, in the order `os.walk` yields them,
 each file paired with what reading it gave.
 */
module ContextWalk {
  import opened Wrappers
  import Nodes
  import Text
  import Paths
  import PurePath
  import Fnmatch

  /** The exclude patterns used when none are given. */
  const DefaultExcludes: seq<string> := ["*.pyc", "*/__pycache__/*", "*.git*"]

  /** One directory of the walk: its root and its files with what reading each gave. */
  datatype Dir<T> = Dir(root: string, files: seq<(string, T)>)

  /** `s.rstrip(chars)`. */
  function RStripChars(s: string, chars: set<char>): (r: string)
    ensures Text.StartsWith(s, r)
    ensures r == [] || r[|r| - 1] !in chars
    ensures forall i :: |r| <= i < |s| ==> s[i] in chars
  {
    if |s| > 0 && s[|s| - 1] in chars then RStripChars(s[..|s| - 1], chars) else s
  }

  /** Whether a pattern is a directory pattern, one ending in a slash and a star. */
  predicate DirPattern(pat: string)
  {
    Text.EndsWith(pat, "/*")
  }

  /** The pattern a directory root is matched against. */
  function DirGlob(pat: string): string
  {
    RStripChars(pat, {'/', '*'})
  }

  /** The pattern actually matched when `pat` is used for roots (`dirs`) or for files. */
  function Applied(pat: string, dirs: bool): string
  {
    if dirs then DirGlob(pat) else pat
  }

  /** `any(Path(path).match(...) for pattern in pats if ...)`: the selected
      patterns are tried in order; the first match answers true, and a
      pattern with no components raises `ValueError` if reached first. */
  function AnyMatch(path: string, pats: seq<string>, dirs: bool): (r: Result<bool, Nodes.Error>)
    ensures r.Ok? ==> (r.value <==> exists i :: 0 <= i < |pats| && DirPattern(pats[i]) == dirs
                                     && PurePath.Match(path, Applied(pats[i], dirs)) == Ok(true))
    ensures r.Err? ==> exists i :: 0 <= i < |pats| && DirPattern(pats[i]) == dirs
                                  && PurePath.Match(path, Applied(pats[i], dirs)).Err?
  {
    if |pats| == 0 then Ok(false)
    else if DirPattern(pats[0]) != dirs then
      var r := AnyMatch(path, pats[1..], dirs);
      assert forall i :: 0 < i < |pats| ==> pats[1..][i - 1] == pats[i];
      r
    else
      match PurePath.Match(path, Applied(pats[0], dirs))
      case Err(e) => Err(e)
      case Ok(true) => Ok(true)
      case Ok(false) =>
        var r := AnyMatch(path, pats[1..], dirs);
        assert forall i :: 0 < i < |pats| ==> pats[1..][i - 1] == pats[i];
        r
  }

  /** Whether the file `name` of a root is wanted: a `.py` file when only those
      are kept, and one whose full path matches no file pattern. */
  function Wanted(root: string, name: string, pats: seq<string>, pyOnly: bool): Result<bool, Nodes.Error>
  {
    if pyOnly && !Text.EndsWith(name, ".py") then Ok(false)
    else
      match AnyMatch(Paths.Join(root, name), pats, false)
      case Err(e) => Err(e)
      case Ok(hit) => Ok(!hit)
  }

  /** The wanted files of one directory, as full paths, in walk order. */
  function Kept<T(!new)>(root: string, files: seq<(string, T)>, pats: seq<string>, pyOnly: bool): (r: Result<seq<(string, T)>, Nodes.Error>)
    ensures r.Ok? ==> |r.value| <= |files|
    ensures r.Ok? ==> forall j :: 0 <= j < |files| ==> Wanted(root, files[j].0, pats, pyOnly).Ok?
    ensures r.Ok? ==> forall x :: x in r.value <==>
              exists j :: 0 <= j < |files| && Wanted(root, files[j].0, pats, pyOnly) == Ok(true)
                       && x == (Paths.Join(root, files[j].0), files[j].1)
    ensures r.Err? <==> exists j :: 0 <= j < |files| && Wanted(root, files[j].0, pats, pyOnly).Err?
  {
    if |files| == 0 then Ok([])
    else
      var w := Wanted(root, files[0].0, pats, pyOnly);
      var rest := Kept(root, files[1..], pats, pyOnly);
      if w.Err? then Err(w.error)
      else if rest.Err? then
        Shift(files);
        rest
      else
        Shift(files);
        if w.value then Ok([(Paths.Join(root, files[0].0), files[0].1)] + rest.value)
        else Ok(rest.value)
  }

  /** The files after the first are the tail's, one position on. */
  lemma Shift<T>(files: seq<T>)
    requires |files| > 0
    ensures forall j :: 0 < j < |files| ==> files[1..][j - 1] == files[j]
  {
  }

  /** What one directory contributes: nothing when its root matches a
      directory pattern, its wanted files otherwise. */
  function Contribution<T(!new)>(d: Dir<T>, pats: seq<string>, pyOnly: bool): (r: Result<seq<(string, T)>, Nodes.Error>)
    ensures AnyMatch(d.root, pats, true) == Ok(true) ==> r == Ok([])
    ensures AnyMatch(d.root, pats, true) == Ok(false) ==> r == Kept(d.root, d.files, pats, pyOnly)
    ensures AnyMatch(d.root, pats, true).Err? ==> r.Err?
  {
    match AnyMatch(d.root, pats, true)
    case Err(e) => Err(e)
    case Ok(true) => Ok([])
    case Ok(false) => Kept(d.root, d.files, pats, pyOnly)
  }

  /** The files `build_context` goes on to sort: every directory's
      contribution, in walk order; any error escapes. */
  function Collect<T(!new)>(walk: seq<Dir<T>>, pats: seq<string>, pyOnly: bool): (r: Result<seq<(string, T)>, Nodes.Error>)
    ensures r.Err? <==> exists i :: 0 <= i < |walk| && Contribution(walk[i], pats, pyOnly).Err?
    ensures r.Ok? ==> forall x :: x in r.value <==>
              exists i :: 0 <= i < |walk| && Contribution(walk[i], pats, pyOnly).Ok?
                       && x in Contribution(walk[i], pats, pyOnly).value
  {
    if |walk| == 0 then Ok([])
    else
      var c := Contribution(walk[0], pats, pyOnly);
      var rest := Collect(walk[1..], pats, pyOnly);
      if c.Err? then c
      else
        Shift(walk);
        if rest.Err? then rest
        else Ok(c.value + rest.value)
  }

  /** A pattern of the other kind is passed over. */
  lemma AnyMatchSkip(path: string, pats: seq<string>, dirs: bool)
    requires |pats| > 0 && DirPattern(pats[0]) != dirs
    ensures AnyMatch(path, pats, dirs) == AnyMatch(path, pats[1..], dirs)
  {
  }

  /** A pattern of the selected kind answers first unless it fails to match. */
  lemma AnyMatchStep(path: string, pats: seq<string>, dirs: bool, hit: bool)
    requires |pats| > 0 && DirPattern(pats[0]) == dirs
    requires PurePath.Match(path, Applied(pats[0], dirs)) == Ok(hit)
    ensures AnyMatch(path, pats, dirs) == if hit then Ok(true) else AnyMatch(path, pats[1..], dirs)
  {
  }

  /** A relative pattern without slashes has that single component. */
  lemma OneComponent(pat: string)
    requires |pat| > 0 && pat[0] != '/' && '/' !in pat && pat != "."
    ensures PurePath.Anchor(pat) == "" && PurePath.Tail(pat) == [pat]
  {
    Text.IndexOfAbsent(pat, '/');
    assert Text.Split(pat, '/') == [pat];
  }

  /** The file-pattern outcome for one default file pattern. */
  lemma NameMatch(path: string, pat: string)
    requires PurePath.Tail(path) != []
    requires |pat| > 0 && pat[0] != '/' && '/' !in pat && pat != "."
    ensures PurePath.Match(path, pat) == Ok(Fnmatch.Matches(pat, PurePath.Name(path)))
  {
    OneComponent(pat);
    PurePath.MatchOneComponent(path, pat);
  }

  lemma PycShape()
    ensures Fnmatch.Literal(".pyc") && "*.pyc" == ['*'] + ".pyc"
  {
  }

  lemma GitShape()
    ensures Fnmatch.Literal(".git") && "*.git*" == ['*'] + ".git" + "*"
  {
  }

  lemma PycPattern(path: string)
    requires PurePath.Tail(path) != []
    ensures PurePath.Match(path, "*.pyc") == Ok(Text.EndsWith(PurePath.Name(path), ".pyc"))
  {
    NameMatch(path, "*.pyc");
    PycShape();
    Fnmatch.StarThenLiteral(".pyc", PurePath.Name(path));
  }

  lemma GitPattern(path: string)
    requires PurePath.Tail(path) != []
    ensures PurePath.Match(path, "*.git*") == Ok(Text.Contains(PurePath.Name(path), ".git"))
  {
    NameMatch(path, "*.git*");
    GitShape();
    Fnmatch.StarLiteralStar(".git", PurePath.Name(path));
  }

  /** The shape of the defaults: a file pattern, a directory pattern, a file pattern. */
  lemma DefaultShape()
    ensures |DefaultExcludes| == 3
    ensures DefaultExcludes[0] == "*.pyc" && DefaultExcludes[1] == "*/__pycache__/*" && DefaultExcludes[2] == "*.git*"
    ensures !DirPattern(DefaultExcludes[0]) && DirPattern(DefaultExcludes[1]) && !DirPattern(DefaultExcludes[2])
  {
  }

  /** With one directory pattern between two file patterns, a file is
      excluded when either file pattern matches it. */
  lemma FileThree(path: string, pats: seq<string>, a: bool, c: bool)
    requires |pats| == 3 && !DirPattern(pats[0]) && DirPattern(pats[1]) && !DirPattern(pats[2])
    requires PurePath.Match(path, pats[0]) == Ok(a) && PurePath.Match(path, pats[2]) == Ok(c)
    ensures AnyMatch(path, pats, false) == Ok(a || c)
  {
    AnyMatchStep(path, pats, false, a);
    AnyMatchSkip(path, pats[1..], false);
    assert pats[1..][1..] == pats[2..] && pats[2..][0] == pats[2] && pats[2..][1..] == [];
    AnyMatchStep(path, pats[2..], false, c);
  }

  /** With one directory pattern between two file patterns, a root is
      excluded exactly when the directory pattern matches it. */
  lemma DirThree(root: string, pats: seq<string>, b: bool)
    requires |pats| == 3 && !DirPattern(pats[0]) && DirPattern(pats[1]) && !DirPattern(pats[2])
    requires PurePath.Match(root, DirGlob(pats[1])) == Ok(b)
    ensures AnyMatch(root, pats, true) == Ok(b)
  {
    AnyMatchSkip(root, pats, true);
    assert pats[1..][0] == pats[1] && pats[1..][1..] == pats[2..];
    AnyMatchStep(root, pats[1..], true, b);
    assert pats[2..][1..] == [];
    AnyMatchSkip(root, pats[2..], true);
  }

  /** Under the default patterns a file is skipped exactly when its name ends
      in ".pyc" or contains ".git". */
  lemma DefaultFileExclusion(path: string)
    requires PurePath.Tail(path) != []
    ensures AnyMatch(path, DefaultExcludes, false)
            == Ok(Text.EndsWith(PurePath.Name(path), ".pyc") || Text.Contains(PurePath.Name(path), ".git"))
  {
    DefaultShape();
    PycPattern(path);
    GitPattern(path);
    FileThree(path, DefaultExcludes, Text.EndsWith(PurePath.Name(path), ".pyc"), Text.Contains(PurePath.Name(path), ".git"));
  }

  lemma PycacheStripped()
    ensures DirGlob("*/__pycache__/*") == "*/__pycache__"
  {
    var a := "*/__pycache__/*";
    var b := "*/__pycache__/";
    assert a[|a| - 1] == '*' && a[..|a| - 1] == b;
    assert b[|b| - 1] == '/' && b[..|b| - 1] == "*/__pycache__";
  }

  /** Splitting two separator-free pieces joined by the separator gives them back. */
  lemma SplitTwo(a: string, b: string, c: char)
    requires c !in a && c !in b
    ensures Text.Split(a + [c] + b, c) == [a, b]
  {
    var s := a + [c] + b;
    Text.IndexOfPrefix(a, b, c);
    assert s[..|a|] == a && s[|a| + 1..] == b;
    Text.IndexOfAbsent(b, c);
  }

  lemma PycacheSplit()
    ensures Text.Split("*/__pycache__", '/') == ["*", "__pycache__"]
  {
    assert "*/__pycache__" == "*" + ['/'] + "__pycache__";
    SplitTwo("*", "__pycache__", '/');
  }

  /** The directory pattern among the defaults, once stripped, is "*" then "__pycache__". */
  lemma PycacheGlob()
    ensures PurePath.Anchor(DirGlob("*/__pycache__/*")) == ""
    ensures PurePath.Parts(DirGlob("*/__pycache__/*")) == ["*", "__pycache__"]
  {
    PycacheStripped();
    PycacheSplit();
    PycacheParts(["*", "__pycache__"]);
  }

  lemma PycacheParts(segs: seq<string>)
    requires segs == ["*", "__pycache__"]
    ensures PurePath.Components(segs) == segs
  {
    assert '/' !in segs[0] && '/' !in segs[1];
    PurePath.ComponentsOfPlain(segs);
  }

  /** A relative two-component pattern is matched against the last two parts. */
  lemma TwoComponentMatch(root: string, pattern: string, a: string, b: string)
    requires PurePath.Anchor(pattern) == "" && PurePath.Parts(pattern) == [a, b]
    ensures var parts := PurePath.Parts(root);
            PurePath.Match(root, pattern)
            == Ok(|parts| >= 2 && Fnmatch.Matches(a, parts[|parts| - 2]) && Fnmatch.Matches(b, parts[|parts| - 1]))
  {
    var parts := PurePath.Parts(root);
    var pats := [a, b];
    if |parts| >= 2 {
      assert PurePath.TailMatches(parts, pats)
             <==> Fnmatch.Matches(a, parts[|parts| - 2]) && Fnmatch.Matches(b, parts[|parts| - 1]) by {
        var n := |parts|;
        if Fnmatch.Matches(a, parts[n - 2]) && Fnmatch.Matches(b, parts[n - 1]) {
          forall j | 0 <= j < |pats| ensures Fnmatch.Matches(pats[j], parts[n - |pats| + j]) {
            if j == 0 { assert pats[j] == a && n - |pats| + j == n - 2; }
            else { assert pats[j] == b && n - |pats| + j == n - 1; }
          }
        }
        if PurePath.TailMatches(parts, pats) {
          assert Fnmatch.Matches(pats[0], parts[n - |pats| + 0]);
          assert Fnmatch.Matches(pats[1], parts[n - |pats| + 1]);
        }
      }
    }
  }

  /** A relative pattern of "*" and a literal matches the roots whose last
      part is that literal, below some other part. */
  lemma StarLiteralDir(root: string, pattern: string, last: string)
    requires PurePath.Anchor(pattern) == "" && PurePath.Parts(pattern) == ["*", last]
    requires Fnmatch.Literal(last)
    ensures PurePath.Match(root, pattern)
            == Ok(|PurePath.Parts(root)| >= 2 && PurePath.Parts(root)[|PurePath.Parts(root)| - 1] == last)
  {
    TwoComponentMatch(root, pattern, "*", last);
    var parts := PurePath.Parts(root);
    if |parts| >= 2 {
      Fnmatch.StarMatchesAll(parts[|parts| - 2]);
      Fnmatch.LiteralMatches(last, parts[|parts| - 1]);
    }
  }

  /** The stripped directory pattern matches roots ending in a "__pycache__"
      component below some other part. */
  lemma PycacheMatch(root: string)
    ensures PurePath.Match(root, DirGlob("*/__pycache__/*"))
            == Ok(|PurePath.Parts(root)| >= 2 && PurePath.Parts(root)[|PurePath.Parts(root)| - 1] == "__pycache__")
  {
    PycacheGlob();
    LiteralName();
    StarLiteralDir(root, DirGlob("*/__pycache__/*"), "__pycache__");
  }

  lemma LiteralName()
    ensures Fnmatch.Literal("__pycache__")
  {
  }

  /** Under the default patterns a directory is skipped exactly when it has a
      parent component and its own last component is "__pycache__". */
  lemma DefaultDirExclusion(root: string)
    ensures AnyMatch(root, DefaultExcludes, true)
            == Ok(|PurePath.Parts(root)| >= 2 && PurePath.Parts(root)[|PurePath.Parts(root)| - 1] == "__pycache__")
  {
    DefaultShape();
    PycacheMatch(root);
    DirThree(root, DefaultExcludes, |PurePath.Parts(root)| >= 2 && PurePath.Parts(root)[|PurePath.Parts(root)| - 1] == "__pycache__");
  }
}
