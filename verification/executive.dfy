/**
 The executive-summary plugin of both filesystems: the statistics it gathers
 by walking the node tree, the information block it hands to the language
 model, and the cache key it derives from two structure signatures.

 The two packages share this code with a different reserved directory
 (`/.llmfs` or `/.touchfs`), which is a parameter here. The summarising model
 call, the nearest-prompt search, JSON encoding and SHA-256 are parameters.
 */
module Executive {
  import opened Wrappers
  import Text
  import Paths
  import PurePath
  import Numerals
  import Sorting
  import Nodes
  import Plugins

  const TouchfsDir := "/.touchfs"
  const LlmfsDir := "/.llmfs"

  /** The file names counted as key files, compared lower-cased. */
  const KeyNames: set<string> :=
    {"readme.md", "requirements.txt", "setup.py", "pyproject.toml",
     "package.json", "dockerfile", "makefile", ".gitignore"}

  /** The plugin, serving `executive` in the reserved directory `procDir`. */
  function Descriptor(procDir: string): Plugins.Plugin
  {
    Plugins.Base("executive", Plugins.Proc(procDir, "executive"))
  }

  /** The llmfs plugin claims its overlay file and not the same name in a
      nested reserved directory or at the root. */
  lemma OverlayPath(node: Nodes.Node)
    ensures var g := Descriptor(Plugins.LlmfsDir);
            && Plugins.CanHandle(g, "/.llmfs/executive", node)
            && !Plugins.CanHandle(g, "/docs/.llmfs/executive", node)
            && !Plugins.CanHandle(g, "/executive", node)
  {
    assert Plugins.LlmfsDir + "executive" == "/.llmfs/executive";
  }

  /** `should_include`: the analysis of the reserved tree keeps exactly the
      paths below `dir`, the main analysis all the others. */
  predicate Included(dir: string, reserved: bool, p: string)
  {
    Text.StartsWith(p, dir + "/") == reserved
  }

  /** Every path belongs to exactly one of the two analyses, and the root
      never to the reserved one. */
  lemma IncludedPartition(dir: string, p: string)
    ensures Included(dir, true, p) != Included(dir, false, p)
    ensures Included(dir, true, p) ==> |p| > |dir| && p[..|dir|] == dir && p[|dir|] == '/'
    ensures !Included(dir, true, "/") || dir == ""
  {
  }

  /** `Path(p).suffix.lower()`. */
  function ExtOf(p: string): string
  {
    Text.Lower(PurePath.Suffix(p))
  }

  predicate IsKeyFile(p: string)
  {
    Text.Lower(PurePath.Name(p)) in KeyNames
  }

  /** The extension and the key-file test read the path's last component,
      ignoring case; a further "." component changes neither. */
  lemma LastComponent(p: string, c: string)
    requires c != "" && c != "." && '/' !in c
    ensures ExtOf(p + "/" + c) == Text.Lower(c[Paths.SuffixStart(c)..])
    ensures IsKeyFile(p + "/" + c) <==> Text.Lower(c) in KeyNames
    ensures ExtOf(p + "/.") == ExtOf(p) && IsKeyFile(p + "/.") == IsKeyFile(p)
  {
    PurePath.NameOfChild(p, c);
    PurePath.NameSkipsDot(p);
  }

  /** A file counts as generated when it names its generator or asks for
      generated content. An empty xattrs dict holds neither key, so the
      source's truthiness test on it changes nothing. */
  predicate IsGenerated(n: Nodes.Node)
  {
    Nodes.XattrOf(n, "generator").Some? || Nodes.XattrOf(n, "generate_content") == Some("true")
  }

  /** The generator name a file adds to the statistics: its own `generator`
      xattr, else `default:` and the name of the nearest prompt file, else
      `default`. */
  function GeneratorOf(n: Nodes.Node, nearest: string -> Option<string>, p: string): (r: Option<string>)
    ensures r.Some? <==> IsGenerated(n)
    ensures Nodes.XattrOf(n, "generator").Some? ==> r == Nodes.XattrOf(n, "generator")
    ensures r.Some? && Nodes.XattrOf(n, "generator").None? ==> Text.StartsWith(r.value, "default")
    ensures r.Some? && Nodes.XattrOf(n, "generator").None? && nearest(p).Some? && nearest(p).value != "" ==>
              r.value == "default:" + PurePath.Name(nearest(p).value)
  {
    var own := Nodes.XattrOf(n, "generator");
    if own.Some? then own
    else if Nodes.XattrOf(n, "generate_content") == Some("true") then
      var prompt := nearest(p);
      if prompt.Some? && prompt.value != "" then
        assert ("default:" + PurePath.Name(prompt.value))[..7] == "default";
        Some("default:" + PurePath.Name(prompt.value))
      else Some("default")
    else None
  }

  /** A key file's path as listed: in the reserved tree, relative to the
      reserved directory, so `/.touchfs/a/readme.md` becomes `/a/readme.md`. */
  function RelPath(dir: string, reserved: bool, p: string): (r: string)
    ensures reserved && Text.StartsWith(p, dir + "/") ==> dir + r == p && r[0] == '/'
    ensures !(reserved && Text.StartsWith(p, dir + "/")) ==> r == p
  {
    if reserved && Text.StartsWith(p, dir + "/") then
      assert p == dir + p[|dir|..];
      p[|dir|..]
    else p
  }

  /** The source's `node_path[7:]`: seven is the length of `/.llmfs`, and
      was kept for `/.touchfs`, which is nine long. */
  function RelPathAsWritten(dir: string, reserved: bool, p: string): string
  {
    if reserved && Text.StartsWith(p, dir + "/") && |p| >= 7 then p[7..] else p
  }

  /** With `/.llmfs` the fixed cut is the intended one. */
  lemma LlmfsCutAgrees(p: string)
    ensures RelPathAsWritten(LlmfsDir, true, p) == RelPath(LlmfsDir, true, p)
  {
  }

  /** With `/.touchfs` the fixed cut leaves `fs` of the directory's name in
      front of the relative path. */
  lemma TouchfsCutKeepsDirTail()
    ensures RelPathAsWritten(TouchfsDir, true, "/.touchfs/readme.md") == "fs/readme.md"
    ensures RelPath(TouchfsDir, true, "/.touchfs/readme.md") == "/readme.md"
  {
    assert Text.StartsWith("/.touchfs/readme.md", TouchfsDir + "/");
  }

  // ---------------------------------------------------------------------
  // The walk
  // ---------------------------------------------------------------------

  /** The paths `process_node` counts, in the order it reaches them: the
      node itself, then each child's subtree in the order `children` lists
      them. An excluded node is skipped with its whole subtree; a child path
      missing from the store raises `KeyError`. */
  function Visit(fs: Nodes.Store, dir: string, reserved: bool, path: string): (r: Result<seq<string>, Nodes.Error>)
    requires Nodes.ValidStore(fs) && Nodes.Descending(fs)
    ensures path !in fs.entries ==> r == Err(Nodes.KeyError)
    ensures path in fs.entries && !Included(dir, reserved, path) ==> r == Ok([])
    ensures r.Ok? && Included(dir, reserved, path) ==> |r.value| > 0 && r.value[0] == path
    ensures r.Ok? ==> forall i :: 0 <= i < |r.value| ==> r.value[i] in fs.entries && Included(dir, reserved, r.value[i])
    decreases Nodes.Longer(fs, path), 1
  {
    if path !in fs.entries then Err(Nodes.KeyError)
    else if !Included(dir, reserved, path) then Ok([])
    else
      Nodes.ChildPathsLonger(fs, path);
      match VisitAll(fs, dir, reserved, path, Nodes.ChildPaths(fs.entries[path]), 0)
      case Err(e) => Err(e)
      case Ok(rest) => Ok([path] + rest)
  }

  /** The subtrees of `kids[i..]`, one after the other. */
  function VisitAll(fs: Nodes.Store, dir: string, reserved: bool, parent: string, kids: seq<string>, i: nat)
    : (r: Result<seq<string>, Nodes.Error>)
    requires Nodes.ValidStore(fs) && Nodes.Descending(fs)
    requires i <= |kids|
    requires forall j :: 0 <= j < |kids| ==> |kids[j]| > |parent|
    ensures (exists j :: i <= j < |kids| && kids[j] !in fs.entries) ==> r.Err?
    ensures r.Ok? ==> forall k :: 0 <= k < |r.value| ==> r.value[k] in fs.entries && Included(dir, reserved, r.value[k])
    decreases Nodes.Longer(fs, parent), 0, |kids| - i
  {
    if i == |kids| then Ok([])
    else if kids[i] !in fs.entries then Err(Nodes.KeyError)
    else
      Nodes.LongerShrinks(fs, parent, kids[i]);
      match Visit(fs, dir, reserved, kids[i])
      case Err(e) => Err(e)
      case Ok(head) =>
        match VisitAll(fs, dir, reserved, parent, kids, i + 1)
        case Err(e) => Err(e)
        case Ok(tail) => Ok(head + tail)
  }

  // ---------------------------------------------------------------------
  // The statistics
  // ---------------------------------------------------------------------

  /** The statistics dict. `fileTypes` keeps the dict's insertion order, as
      `(extension, count)` pairs; `generators` is the set the walk fills. */
  datatype Stats = Stats(
    files: nat,
    dirs: nat,
    symlinks: nat,
    generated: nat,
    fileTypes: seq<(string, nat)>,
    generators: set<string>,
    keyFiles: seq<string>)

  const NoStats := Stats(0, 0, 0, 0, [], {}, [])

  /** `file_types.get(ext, 0)`. */
  function TypeCount(types: seq<(string, nat)>, ext: string): nat
  {
    if |types| == 0 then 0
    else if types[0].0 == ext then types[0].1
    else TypeCount(types[1..], ext)
  }

  /** `file_types[ext] = file_types.get(ext, 0) + 1`: a known extension keeps
      its place, a new one goes last. */
  function Bump(types: seq<(string, nat)>, ext: string): (r: seq<(string, nat)>)
    ensures TypeCount(r, ext) == TypeCount(types, ext) + 1
    ensures forall e :: e != ext ==> TypeCount(r, e) == TypeCount(types, e)
  {
    if |types| == 0 then [(ext, 1)]
    else if types[0].0 == ext then [(ext, types[0].1 + 1)] + types[1..]
    else [types[0]] + Bump(types[1..], ext)
  }

  /** What `process_node` reads off one included node: its type, whether a
      directory is counted (the main analysis skips the reserved directory),
      a file's lower-cased extension, whether it is generated and under which
      generator name, and, for a key file, the path it is listed under. */
  datatype Facts = Facts(
    kind: Nodes.Kind,
    counted: bool,
    ext: string,
    generated: bool,
    generator: Option<string>,
    keyPath: Option<string>)

  function FactsOf(fs: Nodes.Store, dir: string, reserved: bool, nearest: string -> Option<string>, p: string): Facts
    requires p in fs.entries
  {
    var node := fs.entries[p];
    Facts(node.kind, reserved || p != dir, ExtOf(p), IsGenerated(node), GeneratorOf(node, nearest, p),
          if IsKeyFile(p) then Some(RelPath(dir, reserved, p)) else None)
  }

  /** The facts of each path of `ps`. */
  function FactsAll(fs: Nodes.Store, dir: string, reserved: bool, nearest: string -> Option<string>, ps: seq<string>)
    : (r: seq<Facts>)
    requires forall i :: 0 <= i < |ps| ==> ps[i] in fs.entries
    ensures |r| == |ps|
    ensures forall i :: 0 <= i < |ps| ==> r[i] == FactsOf(fs, dir, reserved, nearest, ps[i])
  {
    seq(|ps|, i requires 0 <= i < |ps| && ps[i] in fs.entries => FactsOf(fs, dir, reserved, nearest, ps[i]))
  }

  /** What `process_node` adds for one node. */
  function Step(t: Stats, f: Facts): Stats
  {
    match f.kind
    case File =>
      t.(files := t.files + 1,
         fileTypes := if f.ext == "" then t.fileTypes else Bump(t.fileTypes, f.ext),
         generated := if f.generated then t.generated + 1 else t.generated,
         generators := if f.generator.Some? then t.generators + {f.generator.value} else t.generators,
         keyFiles := if f.keyPath.Some? then t.keyFiles + [f.keyPath.value] else t.keyFiles)
    case Directory =>
      if f.counted then t.(dirs := t.dirs + 1) else t
    case Symlink =>
      t.(symlinks := t.symlinks + 1)
  }

  /** The statistics after counting the nodes in order. */
  function Tally(t: Stats, facts: seq<Facts>): Stats
    decreases |facts|
  {
    if |facts| == 0 then t else Tally(Step(t, facts[0]), facts[1..])
  }

  /** Which statistic a node is counted under, judged node by node. */
  datatype Tag = FileTag | DirTag | LinkTag | GeneratedTag | TypeTag(ext: string)

  predicate Counted(tag: Tag, f: Facts)
  {
    match tag
    case FileTag => f.kind == Nodes.File
    case DirTag => f.kind == Nodes.Directory && f.counted
    case LinkTag => f.kind == Nodes.Symlink
    case GeneratedTag => f.kind == Nodes.File && f.generated
    case TypeTag(e) => f.kind == Nodes.File && e != "" && f.ext == e
  }

  /** How many of the nodes a statistic counts. */
  function CountOf(tag: Tag, facts: seq<Facts>): (n: nat)
    ensures n <= |facts|
    decreases |facts|
  {
    if |facts| == 0 then 0
    else (if Counted(tag, facts[0]) then 1 else 0) + CountOf(tag, facts[1..])
  }

  /** The generator names of the files among the nodes. */
  function GeneratorsOf(facts: seq<Facts>): set<string>
  {
    set i | 0 <= i < |facts| && facts[i].kind == Nodes.File && facts[i].generator.Some? :: facts[i].generator.value
  }

  /** The listed paths of the key files among the nodes, in order. */
  function KeyFilesOf(facts: seq<Facts>): seq<string>
    decreases |facts|
  {
    if |facts| == 0 then []
    else
      (if facts[0].kind == Nodes.File && facts[0].keyPath.Some? then [facts[0].keyPath.value] else [])
      + KeyFilesOf(facts[1..])
  }

  /** The counters of the walk are the node-by-node counts. */
  lemma {:induction false} TallyCounts(t: Stats, facts: seq<Facts>)
    ensures var r := Tally(t, facts);
            && r.files == t.files + CountOf(FileTag, facts)
            && r.dirs == t.dirs + CountOf(DirTag, facts)
            && r.symlinks == t.symlinks + CountOf(LinkTag, facts)
            && r.generated == t.generated + CountOf(GeneratedTag, facts)
    decreases |facts|
  {
    if |facts| > 0 {
      TallyCounts(Step(t, facts[0]), facts[1..]);
    }
  }

  /** Each non-empty extension's entry is the number of files with it. */
  lemma {:induction false} TallyTypes(t: Stats, facts: seq<Facts>, e: string)
    requires e != ""
    ensures TypeCount(Tally(t, facts).fileTypes, e) == TypeCount(t.fileTypes, e) + CountOf(TypeTag(e), facts)
    decreases |facts|
  {
    if |facts| > 0 {
      TallyTypes(Step(t, facts[0]), facts[1..], e);
    }
  }

  lemma GeneratorsOfCons(facts: seq<Facts>)
    requires |facts| > 0
    ensures GeneratorsOf(facts)
            == (if facts[0].kind == Nodes.File && facts[0].generator.Some? then {facts[0].generator.value} else {})
               + GeneratorsOf(facts[1..])
  {
    var rest := facts[1..];
    forall g | g in GeneratorsOf(rest) ensures g in GeneratorsOf(facts) {
      var i :| 0 <= i < |rest| && rest[i].kind == Nodes.File && rest[i].generator.Some? && rest[i].generator.value == g;
      assert facts[i + 1] == rest[i];
    }
    forall g | g in GeneratorsOf(facts)
      ensures (facts[0].kind == Nodes.File && facts[0].generator == Some(g)) || g in GeneratorsOf(rest)
    {
      var i :| 0 <= i < |facts| && facts[i].kind == Nodes.File && facts[i].generator.Some? && facts[i].generator.value == g;
      if i > 0 {
        assert rest[i - 1] == facts[i];
      }
    }
  }

  /** The walk collects exactly the generator names of the files it counts. */
  lemma {:induction false} TallyGenerators(t: Stats, facts: seq<Facts>)
    ensures Tally(t, facts).generators == t.generators + GeneratorsOf(facts)
    decreases |facts|
  {
    if |facts| == 0 {
      assert GeneratorsOf(facts) == {};
    } else {
      TallyGenerators(Step(t, facts[0]), facts[1..]);
      GeneratorsOfCons(facts);
    }
  }

  lemma SeqAssoc(a: seq<string>, b: seq<string>, c: seq<string>)
    ensures a + b + c == a + (b + c)
  {
  }

  /** The walk lists the key files in the order it meets them. */
  lemma {:induction false} TallyKeyFiles(t: Stats, facts: seq<Facts>)
    ensures Tally(t, facts).keyFiles == t.keyFiles + KeyFilesOf(facts)
    decreases |facts|
  {
    if |facts| > 0 {
      var t' := Step(t, facts[0]);
      TallyKeyFiles(t', facts[1..]);
      var head := if facts[0].kind == Nodes.File && facts[0].keyPath.Some? then [facts[0].keyPath.value] else [];
      var tail := KeyFilesOf(facts[1..]);
      assert KeyFilesOf(facts) == head + tail;
      assert t'.keyFiles == t.keyFiles + head;
      SeqAssoc(t.keyFiles, head, tail);
    }
  }

  /** `_analyze_directory(path, structure, is_touchfs)`: walk from `path`,
      count, and sort the key files. */
  function Analyze(fs: Nodes.Store, dir: string, reserved: bool, nearest: string -> Option<string>, path: string)
    : (r: Result<Stats, Nodes.Error>)
    requires Nodes.ValidStore(fs) && Nodes.Descending(fs)
    ensures r.Ok? <==> Visit(fs, dir, reserved, path).Ok?
    ensures r.Ok? ==> forall i, j :: 0 <= i < j < |r.value.keyFiles| ==> Text.LessEq(r.value.keyFiles[i], r.value.keyFiles[j])
  {
    match Visit(fs, dir, reserved, path)
    case Err(e) => Err(e)
    case Ok(ps) =>
      var t := Tally(NoStats, FactsAll(fs, dir, reserved, nearest, ps));
      Ok(t.(keyFiles := Sorting.SortStrings(t.keyFiles)))
  }

  /** What the analysis counts, node by node among those it reaches: files,
      directories, symlinks, generated files, and each extension. */
  lemma AnalyzeCounts(fs: Nodes.Store, dir: string, reserved: bool, nearest: string -> Option<string>, path: string)
    requires Nodes.ValidStore(fs) && Nodes.Descending(fs)
    requires Analyze(fs, dir, reserved, nearest, path).Ok?
    ensures var facts := FactsAll(fs, dir, reserved, nearest, Visit(fs, dir, reserved, path).value);
            var s := Analyze(fs, dir, reserved, nearest, path).value;
            && s.files == CountOf(FileTag, facts)
            && s.dirs == CountOf(DirTag, facts)
            && s.symlinks == CountOf(LinkTag, facts)
            && s.generated == CountOf(GeneratedTag, facts)
            && (forall e :: e != "" ==> TypeCount(s.fileTypes, e) == CountOf(TypeTag(e), facts))
  {
    var facts := FactsAll(fs, dir, reserved, nearest, Visit(fs, dir, reserved, path).value);
    TallyCounts(NoStats, facts);
    forall e | e != ""
      ensures TypeCount(Tally(NoStats, facts).fileTypes, e) == CountOf(TypeTag(e), facts)
    {
      TallyTypes(NoStats, facts, e);
    }
  }

  /** The analysis reports the generator names of the files it reaches, and
      their key files' listed paths as a sorted permutation. */
  lemma AnalyzeNames(fs: Nodes.Store, dir: string, reserved: bool, nearest: string -> Option<string>, path: string)
    requires Nodes.ValidStore(fs) && Nodes.Descending(fs)
    requires Analyze(fs, dir, reserved, nearest, path).Ok?
    ensures var facts := FactsAll(fs, dir, reserved, nearest, Visit(fs, dir, reserved, path).value);
            var s := Analyze(fs, dir, reserved, nearest, path).value;
            && s.generators == GeneratorsOf(facts)
            && multiset(s.keyFiles) == multiset(KeyFilesOf(facts))
  {
    var facts := FactsAll(fs, dir, reserved, nearest, Visit(fs, dir, reserved, path).value);
    TallyGenerators(NoStats, facts);
    TallyKeyFiles(NoStats, facts);
  }

  /** The main analysis never reaches a node below the reserved directory,
      and never counts the reserved directory itself. */
  lemma MainSkipsReserved(fs: Nodes.Store, dir: string, nearest: string -> Option<string>, path: string)
    requires Nodes.ValidStore(fs) && Nodes.Descending(fs)
    requires Visit(fs, dir, false, path).Ok?
    ensures var ps := Visit(fs, dir, false, path).value;
            var facts := FactsAll(fs, dir, false, nearest, ps);
            && (forall i :: 0 <= i < |ps| ==> !Text.StartsWith(ps[i], dir + "/"))
            && (forall i :: 0 <= i < |ps| && Counted(DirTag, facts[i]) ==> ps[i] != dir)
  {
  }

  /** The reserved-tree analysis `generate` asks for starts at the root,
      which is not below the reserved directory: it counts nothing. */
  lemma ReservedFromRootIsEmpty(fs: Nodes.Store, dir: string, nearest: string -> Option<string>)
    requires Nodes.ValidStore(fs) && Nodes.Descending(fs)
    requires "/" in fs.entries && |dir| > 0
    ensures Analyze(fs, dir, true, nearest, "/") == Ok(NoStats)
  {
    assert !Text.StartsWith("/", dir + "/");
    assert FactsAll(fs, dir, true, nearest, []) == [];
  }

  // ---------------------------------------------------------------------
  // The information block
  // ---------------------------------------------------------------------

  /** Sorting by count, largest first: the key of `sorted(..., key=count,
      reverse=True)`. */
  function CountKey(e: (string, nat)): Sorting.Key
  {
    [Sorting.AInt(-(e.1 as int))]
  }

  lemma CountKeyOrder(a: (string, nat), b: (string, nat))
    ensures Sorting.KeyLessEq(CountKey(a), CountKey(b)) <==> a.1 >= b.1
  {
    assert CountKey(b)[1..] == [] && CountKey(a)[1..] == [];
    assert !Sorting.LexLess([], [], Sorting.AtomLess);
    assert Sorting.KeyLess(CountKey(b), CountKey(a)) <==> Sorting.AtomLess(CountKey(b)[0], CountKey(a)[0]);
  }

  /** The file types the block lists: the five with the largest counts (all
      of them when there are fewer), largest first, each an entry of the
      dict, and no entry left out with a larger count than one listed. */
  function TopTypes(types: seq<(string, nat)>): (r: seq<(string, nat)>)
    ensures |r| == if |types| < 5 then |types| else 5
    ensures forall i :: 0 <= i < |r| ==> r[i] in types
    ensures forall i, j :: 0 <= i < j < |r| ==> r[i].1 >= r[j].1
    ensures forall e :: e in types && e !in r ==> |r| == 5 && e.1 <= r[4].1
  {
    var sorted := Sorting.SortBy(types, CountKey);
    var n := if |types| < 5 then |types| else 5;
    var r := sorted[..n];
    forall i, j | 0 <= i < j < |r| ensures r[i].1 >= r[j].1 {
      CountKeyOrder(sorted[i], sorted[j]);
    }
    forall i | 0 <= i < |r| ensures r[i] in types {
      assert sorted[i] in multiset(sorted);
    }
    forall e | e in types && e !in r ensures |r| == 5 && e.1 <= r[4].1 {
      assert e in multiset(sorted);
      var k :| 0 <= k < |sorted| && sorted[k] == e;
      assert k >= n;
      CountKeyOrder(sorted[4], sorted[k]);
    }
    r
  }

  function CountLine(name: string, n: nat): string
  {
    name + ": " + Numerals.NatToString(n)
  }

  /** A titled section: nothing when there is nothing to list. */
  function Section(title: string, items: seq<string>): (r: seq<string>)
  {
    if |items| == 0 then [] else [title] + items
  }

  function TypeLines(top: seq<(string, nat)>): (r: seq<string>)
    ensures |r| == |top|
    ensures forall i :: 0 <= i < |r| ==> r[i] == CountLine(top[i].0, top[i].1)
  {
    seq(|top|, i requires 0 <= i < |top| => CountLine(top[i].0, top[i].1))
  }

  const StatsTitle := "STATISTICS:"
  const TypesTitle := "\nFILE TYPES:"
  const GeneratorsTitle := "\nACTIVE GENERATORS:"
  const KeyFilesTitle := "\nKEY FILES:"

  /** The counts; the generated-files line only when some file is generated. */
  function Header(s: Stats): (r: seq<string>)
    ensures |r| == if s.generated > 0 then 5 else 4
  {
    [StatsTitle, CountLine("Files", s.files), CountLine("Directories", s.dirs), CountLine("Symlinks", s.symlinks)]
    + (if s.generated > 0 then [CountLine("Generated Files", s.generated)] else [])
  }

  /** The generators in ascending order, then the key files in ascending
      order, each under its title when there are any. */
  function Trailer(s: Stats): (r: seq<string>)
    ensures |r| > 0 ==> r[0] == GeneratorsTitle || r[0] == KeyFilesTitle
  {
    Section(GeneratorsTitle, Sorting.SortedSet(s.generators)) + Section(KeyFilesTitle, Sorting.SortStrings(s.keyFiles))
  }

  /** The lines `_format_info_block` joins. */
  function InfoLines(s: Stats): seq<string>
  {
    Header(s) + Section(TypesTitle, TypeLines(TopTypes(s.fileTypes))) + Trailer(s)
  }

  function InfoBlock(s: Stats): string
  {
    Text.Join(InfoLines(s), "\n")
  }

  /** Four lines and whatever follows them, joined by newlines. */
  lemma {:induction false} JoinFour(l: seq<string>)
    requires |l| >= 4
    ensures var head := l[0] + "\n" + l[1] + "\n" + l[2] + "\n" + l[3];
            && Text.StartsWith(Text.Join(l, "\n"), head)
            && (|l| == 4 ==> Text.Join(l, "\n") == head)
  {
    var sep := "\n";
    var t := Text.Join(l[3..], sep);
    if |l| == 4 {
      assert l[3..] == [l[3]];
    } else {
      assert l[3..][1..] == l[4..];
      Text.JoinCons(l[3], l[4..], sep);
    }
    assert t[..|l[3]|] == l[3];
    assert l[2..][1..] == l[3..];
    Text.JoinCons(l[2], l[3..], sep);
    assert l[1..][1..] == l[2..];
    Text.JoinCons(l[1], l[2..], sep);
    Text.JoinCons(l[0], l[1..], sep);
    assert Text.Join(l, sep) == l[0] + sep + l[1] + sep + l[2] + sep + t;
  }

  /** The block's text opens with the title and the three counts, one per
      line; with nothing else to report it is exactly those four lines. */
  lemma InfoBlockOpening(s: Stats)
    ensures var head := StatsTitle + "\n" + CountLine("Files", s.files) + "\n" + CountLine("Directories", s.dirs)
                        + "\n" + CountLine("Symlinks", s.symlinks);
            && Text.StartsWith(InfoBlock(s), head)
            && (s.generated == 0 && s.fileTypes == [] && s.generators == {} && s.keyFiles == [] ==> InfoBlock(s) == head)
  {
    var l := InfoLines(s);
    InfoLinesHeader(s);
    assert l[0] == l[..4][0] && l[1] == l[..4][1] && l[2] == l[..4][2] && l[3] == l[..4][3];
    JoinFour(l);
    if s.generated == 0 && s.fileTypes == [] && s.generators == {} && s.keyFiles == [] {
      assert Trailer(s) == [];
      assert TopTypes(s.fileTypes) == [];
    }
  }

  lemma TitlesDiffer()
    ensures TypesTitle != GeneratorsTitle && TypesTitle != KeyFilesTitle
  {
    assert TypesTitle[1] == 'F' && GeneratorsTitle[1] == 'A' && KeyFilesTitle[1] == 'K';
  }

  lemma GeneratedLineStart(n: nat)
    ensures CountLine("Generated Files", n)[0] == 'G'
  {
    assert CountLine("Generated Files", n) == "Generated Files" + (": " + Numerals.NatToString(n));
  }

  /** The layout of the joined lines, for any header, file types and
      trailer of the shapes the block uses. */
  lemma {:induction false} Layout(h: seq<string>, top: seq<(string, nat)>, t: seq<string>)
    requires |t| > 0 ==> t[0] == GeneratorsTitle || t[0] == KeyFilesTitle
    ensures var l := h + Section(TypesTitle, TypeLines(top)) + t;
            && l[..|h|] == h
            && (|l| > |h| ==> l[|h|][0] == '\n')
            && ((|l| > |h| && l[|h|] == TypesTitle) <==> |top| > 0)
            && (|top| > 0 ==> |l| > |h| + |top|)
            && (forall i :: 0 <= i < |top| ==> l[|h| + 1 + i] == CountLine(top[i].0, top[i].1))
  {
    var types := Section(TypesTitle, TypeLines(top));
    var l := h + types + t;
    assert l == h + (types + t);
    TitlesDiffer();
    if |top| == 0 {
      assert types == [];
      if |l| > |h| {
        assert l[|h|] == t[0];
      }
    } else {
      assert types == [TypesTitle] + TypeLines(top);
      forall i | 0 <= i < |top| ensures l[|h| + 1 + i] == CountLine(top[i].0, top[i].1) {
        assert l[|h| + 1 + i] == types[1 + i];
      }
    }
  }

  /** The block opens with the three counts, and the generated-files line
      follows them exactly when some file is generated. */
  lemma InfoLinesHeader(s: Stats)
    ensures var l := InfoLines(s);
            && |l| >= 4
            && l[..4] == [StatsTitle, CountLine("Files", s.files), CountLine("Directories", s.dirs), CountLine("Symlinks", s.symlinks)]
            && ((|l| > 4 && l[4] == CountLine("Generated Files", s.generated)) <==> s.generated > 0)
  {
    var h := Header(s);
    var l := InfoLines(s);
    Layout(h, TopTypes(s.fileTypes), Trailer(s));
    assert l[..|h|] == h;
    var counts := [StatsTitle, CountLine("Files", s.files), CountLine("Directories", s.dirs), CountLine("Symlinks", s.symlinks)];
    assert h[..4] == counts;
    assert l[..4] == h[..4];
    if s.generated > 0 {
      assert l[4] == h[4];
    } else if |l| > 4 {
      GeneratedLineStart(s.generated);
      assert l[4][0] == '\n';
    }
  }

  /** The file-types section is there exactly when some type was counted,
      and lists the counts of at most five types, largest first. */
  lemma InfoLinesTypes(s: Stats)
    ensures var l := InfoLines(s);
            var k := |Header(s)|;
            var top := TopTypes(s.fileTypes);
            && ((|l| > k && l[k] == TypesTitle) <==> |s.fileTypes| > 0)
            && (|s.fileTypes| > 0 ==> |l| > k + |top|)
            && (forall i :: 0 <= i < |top| ==> l[k + 1 + i] == CountLine(top[i].0, top[i].1))
            && |top| <= 5
            && (forall i, j :: 0 <= i < j < |top| ==> top[i].1 >= top[j].1)
  {
    Layout(Header(s), TopTypes(s.fileTypes), Trailer(s));
  }

  /** With nothing counted, the block is the four statistics lines. */
  lemma EmptyInfoLines()
    ensures InfoLines(NoStats) == ["STATISTICS:", "Files: 0", "Directories: 0", "Symlinks: 0"]
  {
    assert Numerals.NatToString(0) == "0";
    assert CountLine("Files", 0) == "Files: 0";
    assert CountLine("Directories", 0) == "Directories: 0";
    assert CountLine("Symlinks", 0) == "Symlinks: 0";
    assert Header(NoStats) == ["STATISTICS:", "Files: 0", "Directories: 0", "Symlinks: 0"];
    assert TopTypes([]) == [] && TypeLines([]) == [];
    assert Sorting.SortedSet({}) == [] && Sorting.SortStrings([]) == [];
    assert Trailer(NoStats) == [];
  }

  // ---------------------------------------------------------------------
  // The structure signature and the cache key
  // ---------------------------------------------------------------------

  /** `get_node_signature`'s tuples. A symlink node carries no target, so its
      tuple is always `("symlink", None)`. */
  datatype Sig =
    | FileSig(ext: string, generator: Option<string>, marked: bool, key: bool)
    | DirSig(children: seq<Sig>)
    | LinkSig

  /** `get_node_signature(path, structure[path])`: `None` for an excluded
      node, children in sorted path order with the excluded ones dropped.
      Reading a file's xattrs when it has none raises `AttributeError`. */
  function Signature(fs: Nodes.Store, dir: string, reserved: bool, path: string): (r: Result<Option<Sig>, Nodes.Error>)
    requires Nodes.ValidStore(fs) && Nodes.Descending(fs)
    ensures path !in fs.entries ==> r == Err(Nodes.KeyError)
    ensures path in fs.entries ==> (r == Ok(None) <==> !Included(dir, reserved, path))
    decreases Nodes.Longer(fs, path), 1
  {
    if path !in fs.entries then Err(Nodes.KeyError)
    else if !Included(dir, reserved, path) then Ok(None)
    else
      var node := fs.entries[path];
      match node.kind
      case File =>
        if node.xattrs.None? then Err(Nodes.AttributeError)
        else Ok(Some(FileSig(ExtOf(path), Nodes.XattrOf(node, "generator"),
                             Nodes.XattrTruthy(node, "generate_content"), IsKeyFile(path))))
      case Directory =>
        var kids := Sorting.SortStrings(Nodes.ChildPaths(node));
        SortedKidsLonger(fs, path);
        (match SignatureAll(fs, dir, reserved, path, kids, 0)
         case Err(e) => Err(e)
         case Ok(sigs) => Ok(Some(DirSig(sigs))))
      case Symlink => Ok(Some(LinkSig))
  }

  lemma SortedKidsLonger(fs: Nodes.Store, path: string)
    requires Nodes.ValidStore(fs) && Nodes.Descending(fs) && path in fs.entries
    ensures var kids := Sorting.SortStrings(Nodes.ChildPaths(fs.entries[path]));
            forall j :: 0 <= j < |kids| ==> |kids[j]| > |path|
  {
    var raw := Nodes.ChildPaths(fs.entries[path]);
    var kids := Sorting.SortStrings(raw);
    Nodes.ChildPathsLonger(fs, path);
    forall j | 0 <= j < |kids| ensures |kids[j]| > |path| {
      assert kids[j] in multiset(raw);
    }
  }

  /** The signatures of `kids[i..]` that are not `None`. */
  function SignatureAll(fs: Nodes.Store, dir: string, reserved: bool, parent: string, kids: seq<string>, i: nat)
    : (r: Result<seq<Sig>, Nodes.Error>)
    requires Nodes.ValidStore(fs) && Nodes.Descending(fs)
    requires i <= |kids|
    requires forall j :: 0 <= j < |kids| ==> |kids[j]| > |parent|
    ensures r.Ok? ==> |r.value| <= |kids| - i
    decreases Nodes.Longer(fs, parent), 0, |kids| - i
  {
    if i == |kids| then Ok([])
    else if kids[i] !in fs.entries then Err(Nodes.KeyError)
    else
      Nodes.LongerShrinks(fs, parent, kids[i]);
      match Signature(fs, dir, reserved, kids[i])
      case Err(e) => Err(e)
      case Ok(head) =>
        match SignatureAll(fs, dir, reserved, parent, kids, i + 1)
        case Err(e) => Err(e)
        case Ok(tail) => Ok((if head.Some? then [head.value] else []) + tail)
  }

  /** `_get_cache_key`: the digests of the main and the reserved signature of
      the root, joined by a colon. `digest` stands for SHA-256 of the JSON
      text of a signature. */
  function CacheKey(fs: Nodes.Store, dir: string, digest: Option<Sig> -> string): (r: Result<string, Nodes.Error>)
    requires Nodes.ValidStore(fs) && Nodes.Descending(fs)
    ensures r.Ok? <==> Signature(fs, dir, false, "/").Ok? && Signature(fs, dir, true, "/").Ok?
    ensures r.Ok? ==> r.value == digest(Signature(fs, dir, false, "/").value) + ":" + digest(Signature(fs, dir, true, "/").value)
  {
    match Signature(fs, dir, false, "/")
    case Err(e) => Err(e)
    case Ok(main) =>
      match Signature(fs, dir, true, "/")
      case Err(e) => Err(e)
      case Ok(inner) => Ok(digest(main) + ":" + digest(inner))
  }

  /** The reserved half of the key is the digest of `None` whatever the
      reserved tree holds: the root is never below the reserved directory. */
  lemma ReservedHalfConstant(fs: Nodes.Store, dir: string, digest: Option<Sig> -> string)
    requires Nodes.ValidStore(fs) && Nodes.Descending(fs)
    requires "/" in fs.entries && |dir| > 0
    requires CacheKey(fs, dir, digest).Ok?
    ensures CacheKey(fs, dir, digest).value == digest(Signature(fs, dir, false, "/").value) + ":" + digest(None)
  {
    assert !Text.StartsWith("/", dir + "/");
  }

  // ---------------------------------------------------------------------
  // generate
  // ---------------------------------------------------------------------

  /** The statistics as `_generate_cached` sees them after the JSON round
      trip: `sort_keys=True` puts the file types in key order. */
  function ThroughJson(s: Stats): (r: Stats)
    ensures multiset(r.fileTypes) == multiset(s.fileTypes)
    ensures r.(fileTypes := s.fileTypes) == s
  {
    s.(fileTypes := Sorting.SortBy(s.fileTypes, (e: (string, nat)) => Sorting.StrKey(e.0)))
  }

  /** `generate`: the cache key, then both analyses from the root, then one
      summary of each, the main one first. `summarise` is the model call,
      given the block and whether it describes the reserved tree. */
  function Generate(fs: Nodes.Store, dir: string, nearest: string -> Option<string>,
                    digest: Option<Sig> -> string, summarise: (string, bool) -> string)
    : (r: Result<string, Nodes.Error>)
    requires Nodes.ValidStore(fs) && Nodes.Descending(fs)
    ensures r.Ok? <==> CacheKey(fs, dir, digest).Ok? && Analyze(fs, dir, false, nearest, "/").Ok?
                       && Analyze(fs, dir, true, nearest, "/").Ok?
    ensures "/" !in fs.entries ==> r == Err(Nodes.KeyError)
  {
    match CacheKey(fs, dir, digest)
    case Err(e) => Err(e)
    case Ok(_) =>
      match Analyze(fs, dir, false, nearest, "/")
      case Err(e) => Err(e)
      case Ok(main) =>
        match Analyze(fs, dir, true, nearest, "/")
        case Err(e) => Err(e)
        case Ok(inner) =>
          Ok(summarise(InfoBlock(ThroughJson(main)), false) + "\n" + summarise(InfoBlock(ThroughJson(inner)), true))
  }

  /** Whatever the reserved tree holds, its summary is asked for from the
      block of an empty analysis. */
  lemma ReservedSummaryIsEmpty(fs: Nodes.Store, dir: string, nearest: string -> Option<string>,
                               digest: Option<Sig> -> string, summarise: (string, bool) -> string)
    requires Nodes.ValidStore(fs) && Nodes.Descending(fs) && |dir| > 0
    requires Generate(fs, dir, nearest, digest, summarise).Ok?
    ensures Generate(fs, dir, nearest, digest, summarise).value
            == summarise(InfoBlock(ThroughJson(Analyze(fs, dir, false, nearest, "/").value)), false)
               + "\n" + summarise(Text.Join(["STATISTICS:", "Files: 0", "Directories: 0", "Symlinks: 0"], "\n"), true)
  {
    ReservedFromRootIsEmpty(fs, dir, nearest);
    EmptyInfoLines();
    assert ThroughJson(NoStats) == NoStats;
  }
}
