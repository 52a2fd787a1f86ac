/**
 The touchfs README generator, served as `/.touchfs/readme`: an ANSI-coloured
 drawing of the filesystem, children by sorted name, each file padded to a
 column and tagged with the plugin that generates it; and an overview of the
 special files in `/.touchfs`, with a description, the managing plugin and a
 preview of the current content of each.

 The nearest prompt file of a path (`find_nearest_prompt_file`) is not part
 of this model: its answer is the parameter `nearest`. So is the text a
 byte string shows as inside an f-string, the parameter `shown`.
 */
module TouchfsReadme {
  import opened Wrappers
  import opened Dicts
  import Text
  import Utf8
  import Nodes
  import Plugins
  import opened Outline

  const Header := Bold + Blue
  const Subheader := Bold + Cyan
  const Code := Green
  const FileInfo := Magenta

  /** The column a file's tag starts at, unless the name reaches past it. */
  const Column := 40

  /** The longest preview of a file's content, before the ellipsis. */
  const PreviewLength := 200

  /** The plugin, serving `readme` in the touchfs reserved directory. */
  function Descriptor(): Plugins.Plugin
  {
    Plugins.Base("readme", Plugins.Proc(Plugins.TouchfsDir, "readme"))
  }

  /** It claims `/.touchfs/readme` and not the same name anywhere else. */
  lemma ClaimsOwnPath(node: Nodes.Node)
    ensures Plugins.CanHandle(Descriptor(), "/.touchfs/readme", node)
    ensures !Plugins.CanHandle(Descriptor(), "/readme", node)
    ensures !Plugins.CanHandle(Descriptor(), "/docs/.touchfs/readme", node)
  {
    assert Plugins.TouchfsDir + "readme" == "/.touchfs/readme";
  }

  /** A row's branch and name, the name in cyan. */
  function Base(row: Row): string
  {
    row.indent + Branch(Coloured, row.last) + Cyan + row.name + Reset
  }

  /** The spaces that bring a line of `width` characters to the tag column,
      at least one. */
  function Pad(width: nat): (r: string)
    ensures |r| >= 1 && Text.AllSpace(r)
    ensures width + |r| == if width < Column then Column else width + 1
  {
    var n := if Column - width > 1 then Column - width else 1;
    var r := Text.Repeat(' ', n);
    assert Text.AllSpace(r) by {
      forall i | 0 <= i < |r| ensures Text.IsSpace(r[i]) {
        assert r[i] == ' ';
      }
    }
    r
  }

  /** The prompt-file part of a tag: `, using` and the prompt path without
      its leading character, when a non-empty prompt path was found. */
  function Using(prompt: Option<string>): (r: string)
    ensures prompt.None? || prompt == Some("") ==> r == ""
    ensures prompt.Some? && |prompt.value| > 0 ==> r == ", using " + prompt.value[1..]
  {
    if prompt.Some? && |prompt.value| > 0 then ", using " + prompt.value[1..] else ""
  }

  /** A file's tag: generated by its `generator` plugin, or generated on the
      first read, from the nearest prompt file when there is one. */
  function Tag(row: Row, nearest: string -> Option<string>): (r: string)
    ensures Nodes.XattrOf(row.node, "generator").Some? <==>
              Text.StartsWith(r, FileInfo + "[Auto-generated by ")
    ensures Nodes.XattrOf(row.node, "generator").None? ==>
              r == FileInfo + "[Generated on first read" + Using(nearest(row.path)) + "]" + Reset
  {
    match Nodes.XattrOf(row.node, "generator")
    case Some(g) => FileInfo + "[Auto-generated by " + g + " plugin]" + Reset
    case None =>
      var r := FileInfo + "[Generated on first read" + Using(nearest(row.path)) + "]" + Reset;
      assert r[|FileInfo| + 1] == 'G';
      r
  }

  /** A row's line: for a file, padded to the tag column and tagged. */
  function Line(row: Row, nearest: string -> Option<string>): string
  {
    var base := Base(row);
    if row.node.kind == Nodes.File then base + Pad(|base|) + Tag(row, nearest) else base
  }

  /** A file's tag starts at the tag column, or one space after a name that
      reaches it; between name and tag there are only spaces. Any other
      row's line is its branch and name alone. */
  lemma LineShape(row: Row, nearest: string -> Option<string>)
    ensures var line := Line(row, nearest);
            var base := Base(row);
            && Text.StartsWith(line, base)
            && (row.node.kind != Nodes.File ==> line == base)
            && (row.node.kind == Nodes.File ==>
                  var at := if |base| < Column then Column else |base| + 1;
                  && at <= |line|
                  && Text.AllSpace(line[|base|..at])
                  && line[at..] == Tag(row, nearest))
  {
    var base := Base(row);
    if row.node.kind == Nodes.File {
      var pad := Pad(|base|);
      var line := base + pad + Tag(row, nearest);
      assert line[|base|..|base| + |pad|] == pad;
      assert line[|base| + |pad|..] == Tag(row, nearest);
    }
  }

  /** `_build_tree(path, structure, indent)`: children by sorted name,
      every child that is not a file descended into. */
  function BuildTree(fs: Nodes.Store, path: string, indent: string, nearest: string -> Option<string>)
    : (r: Result<seq<string>, Nodes.Error>)
    requires Walkable(fs, Sorted)
    ensures path !in fs.entries ==> r == Err(Nodes.KeyError)
    ensures r.Ok? <==> Walk(fs, Sorted, AllButFiles, Coloured, path, indent).Ok?
    ensures r.Ok? ==> r.value == Render(Walk(fs, Sorted, AllButFiles, Coloured, path, indent).value,
                                        row => Line(row, nearest))
  {
    match Walk(fs, Sorted, AllButFiles, Coloured, path, indent)
    case Err(e) => Err(e)
    case Ok(rows) => Ok(Render(rows, row => Line(row, nearest)))
  }

  /** The root's own level lists its children once each, by ascending name,
      the last one drawn with `└── `; a file is never descended into, so the
      row after a file is never deeper than it. */
  lemma RootChildrenSorted(fs: Nodes.Store, rows: seq<Row>)
    requires Walkable(fs, Sorted) && "/" in fs.entries
    requires Walk(fs, Sorted, AllButFiles, Coloured, "/", "") == Ok(rows)
    ensures SortedLevel(ChildMap(fs.entries["/"]), Level(rows, 0))
    ensures forall k :: 0 <= k < |rows| - 1 && rows[k].node.kind == Nodes.File ==>
              |rows[k + 1].indent| <= |rows[k].indent|
  {
    SortedWalkLevel(fs, AllButFiles, Coloured, "/", "", rows);
    assert LeavesFlat(rows, AllButFiles);
  }

  const ModelText := "Specifies the OpenAI model used for content generation. Can be set using JSON format or raw model name. Default: gpt-4o-2024-08-06"
  const PromptText := "Contains the system prompt template used for content generation. Supports custom prompts per directory and includes best practices for different file types."
  const ReadmeText := "This file - provides filesystem documentation and structure overview. Auto-updates when filesystem changes."
  const TreeText := "Provides a structured, greppable tree visualization of the filesystem, showing which plugins generate each file's content."
  const LogText := "Provides access to the TouchFS log file (/var/log/touchfs/touchfs.log) for monitoring system activity and debugging."

  /** The descriptions of the known special files. */
  function Description(name: string): Option<string>
  {
    if name == "model.default" then Some(ModelText)
    else if name == "prompt.default" then Some(PromptText)
    else if name == "readme" then Some(ReadmeText)
    else if name == "tree" then Some(TreeText)
    else if name == "log" then Some(LogText)
    else None
  }

  /** The preview of text content: the stripped content cut to the preview
      length, with an ellipsis when the content itself is longer. */
  function Preview(content: string): string
  {
    Text.Take(Text.Strip(content), PreviewLength) + (if |content| > PreviewLength then "..." else "")
  }

  /** Short content is previewed whole, only stripped; long content is cut
      and marked as cut. */
  lemma PreviewShape(content: string)
    ensures |content| <= PreviewLength ==> Preview(content) == Text.Strip(content)
    ensures |content| > PreviewLength ==>
              && Text.EndsWith(Preview(content), "...")
              && |Preview(content)| <= PreviewLength + 3
              && Text.StartsWith(Preview(content), Text.Take(Text.Strip(content), PreviewLength))
  {
  }

  /** The heading of one special file. */
  function Heading(name: string): string
  {
    "\n" + Subheader + "### " + name + Reset
  }

  /** The fixed opening of the overview. */
  const Intro := [Header + "## .touchfs Directory Overview" + Reset + "\n",
                  "The .touchfs directory contains special files that control and monitor the filesystem:\n"]

  const NoDirectory := "No .touchfs directory found."

  /** The description entry of a known special file. */
  function Described(name: string): (r: seq<string>)
    ensures |r| == if Description(name).Some? then 1 else 0
  {
    match Description(name)
    case Some(d) => ["\n" + d]
    case None => []
  }

  /** The managing-plugin entry of a file with a `generator` xattr. */
  function Managed(n: Nodes.Node): (r: seq<string>)
    ensures |r| == if Nodes.XattrOf(n, "generator").Some? then 1 else 0
  {
    match Nodes.XattrOf(n, "generator")
    case Some(g) => ["\nManaged by: " + g + " plugin"]
    case None => []
  }

  /** The preview entry of a file with content. */
  function Previewed(content: Nodes.Body, shown: seq<Utf8.byte> -> string): (r: seq<string>)
    ensures |r| == if Nodes.Truthy(content) then 1 else 0
    ensures content.Text? && |content.text| > 0 ==>
              r == ["\nCurrent content preview:\n" + Code + "```\n" + Preview(content.text) + "\n```" + Reset]
  {
    if !Nodes.Truthy(content) then []
    else
      var preview := if content.Text? then Preview(content.text) else shown(content.bytes);
      ["\nCurrent content preview:\n" + Code + "```\n" + preview + "\n```" + Reset]
  }

  /** The overview entries of one special file: its heading, then its
      description, its managing plugin and its content preview when it has
      them. */
  function Section(name: string, n: Nodes.Node, shown: seq<Utf8.byte> -> string): (r: seq<string>)
    ensures |r| == 1 + (if Description(name).Some? then 1 else 0)
                     + (if Nodes.XattrOf(n, "generator").Some? then 1 else 0)
                     + (if Nodes.Truthy(n.content) then 1 else 0)
    ensures r[0] == Heading(name)
  {
    [Heading(name)] + Described(name) + Managed(n) + Previewed(n.content, shown)
  }

  /** Byte content too long to preview: the ellipsis is text and the cut
      content is bytes, so adding them is a `TypeError`. */
  predicate LongBytes(n: Nodes.Node)
  {
    n.content.Bytes? && |n.content.bytes| > PreviewLength
  }

  /** The special files `kids[i..]` with their nodes, in order; the first
      one missing from the store is a `KeyError`, or, before that, the
      first one holding byte content too long to preview is a `TypeError`. */
  function Listed(fs: Nodes.Store, kids: seq<(string, string)>, i: nat): (r: Result<seq<(string, Nodes.Node)>, Nodes.Error>)
    requires i <= |kids|
    ensures r.Ok? ==> |r.value| == |kids| - i
    decreases |kids| - i
  {
    if i == |kids| then Ok([])
    else if kids[i].1 !in fs.entries then Err(Nodes.KeyError)
    else if LongBytes(fs.entries[kids[i].1]) then Err(Nodes.TypeError)
    else
      match Listed(fs, kids, i + 1)
      case Err(e) => Err(e)
      case Ok(rest) => Ok([(kids[i].0, fs.entries[kids[i].1])] + rest)
  }

  /** The sections of the listed files, one after the other. */
  function Sections(files: seq<(string, Nodes.Node)>, shown: seq<Utf8.byte> -> string): seq<string>
  {
    if |files| == 0 then [] else Section(files[0].0, files[0].1, shown) + Sections(files[1..], shown)
  }

  /** `_get_touchfs_overview`: a fixed message without `/.touchfs`;
      otherwise the opening and the special files' sections by sorted name,
      one entry per line. */
  function Overview(fs: Nodes.Store, shown: seq<Utf8.byte> -> string): (r: Result<string, Nodes.Error>)
    requires Nodes.ValidStore(fs)
    ensures "/.touchfs" !in fs.entries ==> r == Ok(NoDirectory)
    ensures "/.touchfs" in fs.entries ==>
              var kids := Pairs(ChildMap(fs.entries["/.touchfs"]), true);
              && (r.Ok? <==> Listed(fs, kids, 0).Ok?)
              && (r.Ok? ==> r.value == Text.Join(Intro + Sections(Listed(fs, kids, 0).value, shown), "\n"))
  {
    if "/.touchfs" !in fs.entries then Ok(NoDirectory)
    else
      var kids := Pairs(ChildMap(fs.entries["/.touchfs"]), true);
      match Listed(fs, kids, 0)
      case Err(e) => Err(e)
      case Ok(files) => Ok(Text.Join(Intro + Sections(files, shown), "\n"))
  }

  /** A listed special file is stored and its content can be previewed. */
  predicate Fine(fs: Nodes.Store, kid: (string, string))
  {
    kid.1 in fs.entries && !LongBytes(fs.entries[kid.1])
  }

  /** The overview is drawn exactly when every listed file is stored and
      none holds byte content too long to preview. */
  lemma {:induction false} ListedOkIff(fs: Nodes.Store, kids: seq<(string, string)>, i: nat)
    requires i <= |kids|
    ensures Listed(fs, kids, i).Ok? <==> forall j :: i <= j < |kids| ==> Fine(fs, kids[j])
    decreases |kids| - i
  {
    if i < |kids| {
      ListedOkIff(fs, kids, i + 1);
    }
  }

  /** The listed files are `kids[i..]`, in order, each with its stored node. */
  lemma {:induction false} ListedItems(fs: Nodes.Store, kids: seq<(string, string)>, i: nat)
    requires i <= |kids|
    requires Listed(fs, kids, i).Ok?
    ensures var files := Listed(fs, kids, i).value;
            forall k :: i <= k < |kids| ==>
              kids[k].1 in fs.entries && files[k - i] == (kids[k].0, fs.entries[kids[k].1])
    decreases |kids| - i
  {
    if i < |kids| {
      ListedItems(fs, kids, i + 1);
      var files := Listed(fs, kids, i).value;
      var rest := Listed(fs, kids, i + 1).value;
      assert files == [(kids[i].0, fs.entries[kids[i].1])] + rest;
      forall k | i < k < |kids|
        ensures kids[k].1 in fs.entries && files[k - i] == (kids[k].0, fs.entries[kids[k].1])
      {
        assert files[k - i] == rest[k - (i + 1)];
      }
    }
  }

  /** The names of listed files. */
  function FileNames(files: seq<(string, Nodes.Node)>): (r: seq<string>)
    ensures |r| == |files|
    ensures forall j :: 0 <= j < |files| ==> r[j] == files[j].0
  {
    seq(|files|, j requires 0 <= j < |files| => files[j].0)
  }

  /** The files are the children of `c`, each once, by ascending name, each
      with the node stored at the child's path. */
  predicate ListsChildren(fs: Nodes.Store, c: Dict<string, string>, files: seq<(string, Nodes.Node)>)
  {
    && multiset(FileNames(files)) == multiset(c.keys)
    && (forall j :: 0 <= j < |files| ==>
          files[j].0 in c.entries && c.entries[files[j].0] in fs.entries
          && files[j].1 == fs.entries[c.entries[files[j].0]])
    && (forall j, k :: 0 <= j < k < |files| ==> Text.LessEq(files[j].0, files[k].0))
  }

  lemma ListedFromPairs(fs: Nodes.Store, c: Dict<string, string>, kids: seq<(string, string)>,
                        files: seq<(string, Nodes.Node)>)
    requires c.Valid() && kids == Pairs(c, true) && |files| == |kids|
    requires forall j :: 0 <= j < |files| ==> kids[j].1 in fs.entries && files[j] == (kids[j].0, fs.entries[kids[j].1])
    ensures ListsChildren(fs, c, files)
  {
    assert FileNames(files) == Names(kids);
  }

  /** The overview has one section per child of `/.touchfs` (the children
      map `c`), each child once, by ascending name, each with its stored
      node. */
  lemma OverviewListsChildren(fs: Nodes.Store, c: Dict<string, string>)
    requires c.Valid()
    requires Listed(fs, Pairs(c, true), 0).Ok?
    ensures ListsChildren(fs, c, Listed(fs, Pairs(c, true), 0).value)
  {
    var kids := Pairs(c, true);
    ListedItems(fs, kids, 0);
    ListedFromPairs(fs, c, kids, Listed(fs, kids, 0).value);
  }

  /** The sections are the files' sections in order: the one of the file
      `k` starts after the entries of the files before it. */
  lemma {:induction false} SectionsAppend(a: seq<(string, Nodes.Node)>, b: seq<(string, Nodes.Node)>,
                                          shown: seq<Utf8.byte> -> string)
    ensures Sections(a + b, shown) == Sections(a, shown) + Sections(b, shown)
    decreases |a|
  {
    if |a| > 0 {
      assert (a + b)[1..] == a[1..] + b;
      SectionsAppend(a[1..], b, shown);
    } else {
      assert a + b == b;
    }
  }

  /** Between the opening and the first file's heading there is nothing:
      the heading of the first listed file directly follows the opening. */
  lemma FirstHeading(files: seq<(string, Nodes.Node)>, shown: seq<Utf8.byte> -> string)
    requires |files| > 0
    ensures var entries := Intro + Sections(files, shown);
            |entries| > |Intro| && entries[|Intro|] == Heading(files[0].0)
  {
  }
}
