/**
 The llmfs `tree` generator: a greppable drawing of the whole filesystem,
 one line per node, children in the order their directory stores them, in
 which every file names the plugin that generates its content.
 */
module TreePlugin {
  import opened Wrappers
  import Text
  import Nodes
  import Plugins
  import opened Outline

  const Header := "# Filesystem Tree Structure\n# Files are marked with [generator:name] to indicate which plugin generates their content\n"

  /** The plugin, serving `tree` in the llmfs reserved directory. */
  function Descriptor(): Plugins.Plugin
  {
    Plugins.Base("tree", Plugins.Proc(Plugins.LlmfsDir, "tree"))
  }

  /** It claims `/.llmfs/tree` and not the same name anywhere else. */
  lemma ClaimsOwnPath(node: Nodes.Node)
    ensures Plugins.CanHandle(Descriptor(), "/.llmfs/tree", node)
    ensures !Plugins.CanHandle(Descriptor(), "/tree", node)
    ensures !Plugins.CanHandle(Descriptor(), "/docs/.llmfs/tree", node)
  {
    assert Plugins.LlmfsDir + "tree" == "/.llmfs/tree";
  }

  /** The plugin a file's line names: its `generator` xattr, and `default`
      for a file without one, whether it has no xattrs or other xattrs only. */
  function GeneratorName(n: Nodes.Node): (r: string)
    ensures Nodes.XattrOf(n, "generator").Some? ==> r == Nodes.XattrOf(n, "generator").value
    ensures Nodes.XattrOf(n, "generator").None? ==> r == "default"
  {
    match Nodes.XattrOf(n, "generator")
    case Some(g) => g
    case None => "default"
  }

  /** A row's line: its branch and name, and for a file the generator label. */
  function Line(row: Row): string
  {
    row.indent + Branch(Plain, row.last) + row.name
    + (if row.node.kind == Nodes.File then " [generator:" + GeneratorName(row.node) + "]" else "")
  }

  /** `_build_tree(path, structure, indent)`: the rows below `path`, children
      in stored order, directories descended into. */
  function BuildTree(fs: Nodes.Store, path: string, indent: string): (r: Result<seq<string>, Nodes.Error>)
    requires Walkable(fs, Stored)
    ensures path !in fs.entries ==> r == Err(Nodes.KeyError)
    ensures r.Ok? <==> Walk(fs, Stored, DirsOnly, Plain, path, indent).Ok?
    ensures r.Ok? ==> r.value == Render(Walk(fs, Stored, DirsOnly, Plain, path, indent).value, Line)
  {
    match Walk(fs, Stored, DirsOnly, Plain, path, indent)
    case Err(e) => Err(e)
    case Ok(rows) => Ok(Render(rows, Line))
  }

  /** `generate`: the header, a line for the root, then the tree below it. */
  function Generate(fs: Nodes.Store): (r: Result<string, Nodes.Error>)
    requires Walkable(fs, Stored)
    ensures "/" !in fs.entries ==> r == Err(Nodes.KeyError)
    ensures r.Ok? <==> BuildTree(fs, "/", "").Ok?
    ensures r.Ok? ==> r.value == Header + Text.Join(["/"] + BuildTree(fs, "/", "").value, "\n")
  {
    if "/" !in fs.entries then Err(Nodes.KeyError)
    else
      match BuildTree(fs, "/", "")
      case Err(e) => Err(e)
      case Ok(lines) => Ok(Header + Text.Join(["/"] + lines, "\n"))
  }

  /** Every file's line ends in the label naming its generator; no other
      line carries a label. */
  lemma Labels(row: Row)
    ensures row.node.kind == Nodes.File ==>
              Line(row) == row.indent + Branch(Plain, row.last) + row.name + " [generator:" + GeneratorName(row.node) + "]"
    ensures row.node.kind != Nodes.File ==> Line(row) == row.indent + Branch(Plain, row.last) + row.name
  {
  }

  lemma LineStarts(row: Row)
    ensures Text.StartsWith(Line(row), row.indent + Branch(Plain, row.last) + row.name)
  {
    var stem := row.indent + Branch(Plain, row.last) + row.name;
    assert Line(row)[..|stem|] == stem;
  }

  /** The lines at the root's own level are its children, in the order the
      root's children map stores them, the last one drawn with `└── ` and
      every other one with `├── `. */
  lemma RootChildren(fs: Nodes.Store, rows: seq<Row>)
    requires Walkable(fs, Stored) && "/" in fs.entries
    requires Walk(fs, Stored, DirsOnly, Plain, "/", "") == Ok(rows)
    ensures TopLines(ChildMap(fs.entries["/"]), Level(rows, 0))
  {
    var c := ChildMap(fs.entries["/"]);
    assert Kids(fs, Stored, "/") == Ok(Pairs(c, false));
    StoredTops(c, Level(rows, 0));
  }

  /** The rows of a level are the children map's entries in stored order,
      each drawn behind the branch its position calls for. */
  predicate TopLines(c: Dicts.Dict<string, string>, top: seq<Row>)
  {
    && |top| == |c.keys|
    && forall j :: 0 <= j < |top| ==>
         && top[j].name == c.keys[j] && c.keys[j] in c.entries && top[j].path == c.entries[c.keys[j]]
         && (top[j].last <==> j == |top| - 1)
         && Text.StartsWith(Line(top[j]), Branch(Plain, top[j].last) + c.keys[j])
  }

  lemma StoredTops(c: Dicts.Dict<string, string>, top: seq<Row>)
    requires c.Valid()
    requires Tops(top, Pairs(c, false), 0, "")
    ensures TopLines(c, top)
  {
    var kids := Pairs(c, false);
    assert Names(kids) == c.keys;
    forall j | 0 <= j < |top|
      ensures top[j].name == c.keys[j] && Text.StartsWith(Line(top[j]), Branch(Plain, top[j].last) + c.keys[j])
    {
      LineStarts(top[j]);
      assert top[j].name == Names(kids)[j];
      assert top[j].indent + Branch(Plain, top[j].last) + top[j].name == Branch(Plain, top[j].last) + top[j].name;
    }
  }

  /** A line is deeper than the one before it only below a directory. */
  lemma OnlyDirectoriesNest(fs: Nodes.Store, path: string, indent: string)
    requires Walkable(fs, Stored)
    requires BuildTree(fs, path, indent).Ok?
    ensures var rows := Walk(fs, Stored, DirsOnly, Plain, path, indent).value;
            forall k :: 0 <= k < |rows| - 1 && |rows[k + 1].indent| > |rows[k].indent| ==>
              rows[k].node.kind == Nodes.Directory
  {
  }

  /** Splitting the generated text after the header at newlines gives back
      the root's line and one line per row, when no line holds a newline
      of its own. */
  lemma GeneratedLines(fs: Nodes.Store)
    requires Walkable(fs, Stored)
    requires Generate(fs).Ok?
    requires forall k :: 0 <= k < |BuildTree(fs, "/", "").value| ==> '\n' !in BuildTree(fs, "/", "").value[k]
    ensures var text := Generate(fs).value;
            && Text.StartsWith(text, Header)
            && Text.Split(text[|Header|..], '\n') == ["/"] + BuildTree(fs, "/", "").value
  {
    var lines := BuildTree(fs, "/", "").value;
    var text := Generate(fs).value;
    assert text == Header + Text.Join(["/"] + lines, "\n");
    assert text[|Header|..] == Text.Join(["/"] + lines, "\n");
    forall k | 0 <= k < |["/"] + lines| ensures '\n' !in (["/"] + lines)[k] {
      if k > 0 { assert (["/"] + lines)[k] == lines[k - 1]; }
    }
    Text.SplitJoin(["/"] + lines, '\n');
  }
}
