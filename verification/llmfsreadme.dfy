/**
 The llmfs README generator: an overlay file `/README.llmfs` whose content is
 a drawing of the filesystem, children by sorted name, in which every file
 is followed by a status line saying whether a plugin generates it.
 */
module LlmfsReadme {
  import opened Wrappers
  import Text
  import Nodes
  import Plugins
  import opened Outline

  const Head := "# Project Structure\n\nThis directory contains the following structure:\n\n"
  const Foot := "\n\nFiles marked with \"(Content auto-generated...)\" are dynamically generated when read.\nTheir content is created based on the specified plugin and the current state of the filesystem.\n"

  /** The overlay file `/README.llmfs`, tagged as the readme plugin's. */
  function Overlay(): (f: Plugins.OverlayFile)
    ensures f.path == "/README.llmfs" && f.kind == Nodes.File
    ensures f.xattrs.keys == ["generator"] && f.xattrs.Get("generator") == Some("readme")
  {
    Plugins.NewOverlayFile("/README.llmfs", Some(Plugins.GeneratorTag("readme")))
  }

  /** The plugin: the base class's claim on nodes tagged `readme`, and the
      overlay file. */
  function Descriptor(): Plugins.Plugin
  {
    Plugins.Base("readme", Plugins.Own((p: string, n: Nodes.Node) => Plugins.DefaultCanHandle("readme", n), [Overlay()]))
  }

  /** The plugin's one overlay file is `/README.llmfs`, and a node carrying
      that file's xattrs is claimed by the plugin at any path. */
  lemma OverlayClaimed(node: Nodes.Node, path: string)
    requires node.xattrs == Some(Overlay().xattrs)
    ensures Descriptor().matcher.files == [Overlay()]
    ensures Plugins.CanHandle(Descriptor(), path, node)
  {
  }

  /** A file's status: generated by its `generator` plugin, or static. */
  function Status(n: Nodes.Node): (r: string)
    ensures Nodes.XattrOf(n, "generator").Some? <==> Text.StartsWith(r, "[Auto-generated by ")
    ensures Nodes.XattrOf(n, "generator").None? ==> r == "[Static file]"
  {
    match Nodes.XattrOf(n, "generator")
    case Some(g) => "[Auto-generated by " + g + " plugin]"
    case None => "[Static file]"
  }

  /** A row's lines: its branch and name; for a file, then its status one
      step further in and four more spaces. */
  function Lines(row: Row): (r: seq<string>)
    ensures |r| == if row.node.kind == Nodes.File then 2 else 1
  {
    [row.indent + Branch(Plain, row.last) + row.name]
    + (if row.node.kind == Nodes.File then [row.indent + Step(Plain, row.last) + "    " + Status(row.node)] else [])
  }

  /** `_build_tree(path, structure, indent)`: children by sorted name,
      directories descended into. */
  function BuildTree(fs: Nodes.Store, path: string, indent: string): (r: Result<seq<string>, Nodes.Error>)
    requires Walkable(fs, Sorted)
    ensures path !in fs.entries ==> r == Err(Nodes.KeyError)
    ensures r.Ok? <==> Walk(fs, Sorted, DirsOnly, Plain, path, indent).Ok?
    ensures r.Ok? ==> r.value == Flatten(Walk(fs, Sorted, DirsOnly, Plain, path, indent).value, Lines)
  {
    match Walk(fs, Sorted, DirsOnly, Plain, path, indent)
    case Err(e) => Err(e)
    case Ok(rows) => Ok(Flatten(rows, Lines))
  }

  /** `generate`: the tree from the root between the fixed head and foot. */
  function Generate(fs: Nodes.Store): (r: Result<string, Nodes.Error>)
    requires Walkable(fs, Sorted)
    ensures "/" !in fs.entries ==> r == Err(Nodes.KeyError)
    ensures r.Ok? <==> BuildTree(fs, "/", "").Ok?
    ensures r.Ok? ==> r.value == Head + Text.Join(BuildTree(fs, "/", "").value, "\n") + Foot
  {
    match BuildTree(fs, "/", "")
    case Err(e) => Err(e)
    case Ok(lines) => Ok(Head + Text.Join(lines, "\n") + Foot)
  }

  /** The number of file rows. */
  function Files(rows: seq<Row>): nat
  {
    if |rows| == 0 then 0 else (if rows[0].node.kind == Nodes.File then 1 else 0) + Files(rows[1..])
  }

  /** Each file adds exactly one status line to the one line every row gets. */
  lemma {:induction false} OneStatusPerFile(rows: seq<Row>)
    ensures |Flatten(rows, Lines)| == |rows| + Files(rows)
    decreases |rows|
  {
    if |rows| > 0 {
      OneStatusPerFile(rows[1..]);
    }
  }

  /** The root's own level lists its children once each, by ascending name,
      the last one drawn with `└── `. */
  lemma RootChildrenSorted(fs: Nodes.Store, rows: seq<Row>)
    requires Walkable(fs, Sorted) && "/" in fs.entries
    requires Walk(fs, Sorted, DirsOnly, Plain, "/", "") == Ok(rows)
    ensures SortedLevel(ChildMap(fs.entries["/"]), Level(rows, 0))
  {
    SortedWalkLevel(fs, DirsOnly, Plain, "/", "", rows);
  }
}
