/**
 The mount command's `format_simple_tree`: a plain drawing of a generated
 filesystem in which a node's children are found by scanning every stored
 path for those whose parent directory is the node, rather than by
 following children links. Directories are marked with a trailing `/`.
 */
module SimpleTree {
  import opened Wrappers
  import Text
  import Paths
  import Nodes
  import opened Outline

  /** A row's line: its branch and name, a directory's name ending in `/`. */
  function Line(row: Row): string
  {
    row.indent + Branch(Plain, row.last) + row.name + (if row.node.kind == Nodes.Directory then "/" else "")
  }

  /** `line.strip()` is non-empty: the line is kept. */
  predicate Shows(line: string)
  {
    |Text.Strip(line)| > 0
  }

  /** The lines that show, in order. */
  function Shown(lines: seq<string>): (r: seq<string>)
    ensures forall k :: 0 <= k < |r| ==> Shows(r[k])
  {
    if |lines| == 0 then []
    else (if Shows(lines[0]) then [lines[0]] else []) + Shown(lines[1..])
  }

  /** `format_simple_tree(data, path, indent)`: the kept lines of the
      children's lines and the subtrees of the directories among them, each
      subtree split back into lines, joined with newlines. */
  function Format(fs: Nodes.Store, path: string, indent: string): string
    requires Nodes.ValidStore(fs)
    decreases Nodes.Longer(fs, path), 1
  {
    var kids := ScanKids(fs, path);
    KidsLonger(fs, Scan, path);
    Text.Join(Shown(FormatAll(fs, path, kids, 0, indent)), "\n")
  }

  /** A subtree's text split back into lines; an empty subtree adds none. */
  function Lines(s: string): seq<string>
  {
    if s == "" then [] else Text.Split(s, '\n')
  }

  function FormatAll(fs: Nodes.Store, parent: string, kids: seq<(string, string)>, i: nat, indent: string)
    : seq<string>
    requires Nodes.ValidStore(fs)
    requires i <= |kids|
    requires forall j :: 0 <= j < |kids| ==> kids[j].1 in fs.entries && |kids[j].1| > |parent|
    decreases Nodes.Longer(fs, parent), 0, |kids| - i
  {
    if i == |kids| then []
    else
      var last := i == |kids| - 1;
      var p := kids[i].1;
      var isDir := fs.entries[p].kind == Nodes.Directory;
      var line := indent + Branch(Plain, last) + kids[i].0 + (if isDir then "/" else "");
      Nodes.LongerShrinks(fs, parent, p);
      var below := if isDir then Lines(Format(fs, p, indent + Step(Plain, last))) else [];
      [line] + below + FormatAll(fs, parent, kids, i + 1, indent)
  }

  /** No stored path holds a newline. */
  predicate NoNewlines(fs: Nodes.Store)
  {
    forall p :: p in fs.entries ==> '\n' !in p
  }

  /** A line holds a branch glyph, so it shows. */
  lemma BranchShows(line: string, indent: string, last: bool, rest: string)
    requires line == indent + Branch(Plain, last) + rest
    ensures Shows(line)
  {
    assert line[|indent|] == (if last then '└' else '├');
    Text.StripEmptyIffAllSpace(line);
  }

  lemma {:induction false} ShownAll(lines: seq<string>)
    requires forall k :: 0 <= k < |lines| ==> Shows(lines[k])
    ensures Shown(lines) == lines
    decreases |lines|
  {
    if |lines| > 0 {
      var t := lines[1..];
      forall k | 0 <= k < |t|
        ensures Shows(t[k])
      {
        assert t[k] == lines[k + 1];
      }
      ShownAll(t);
      assert Shows(lines[0]);
    }
  }

  lemma JoinNonEmpty(lines: seq<string>, sep: string)
    requires |lines| > 0 && |lines[0]| > 0
    ensures Text.Join(lines, sep) != ""
  {
  }

  /** Lines that hold no newline and show. */
  predicate Clean(lines: seq<string>)
  {
    forall k :: 0 <= k < |lines| ==> '\n' !in lines[k] && Shows(lines[k])
  }

  lemma CleanAppend(a: seq<string>, b: seq<string>)
    requires Clean(a) && Clean(b)
    ensures Clean(a + b)
  {
    forall k | 0 <= k < |a + b| ensures '\n' !in (a + b)[k] && Shows((a + b)[k]) {
      if k >= |a| {
        assert (a + b)[k] == b[k - |a|];
      } else {
        assert (a + b)[k] == a[k];
      }
    }
  }

  lemma CleanCons(line: string, a: seq<string>, b: seq<string>)
    requires '\n' !in line && Shows(line) && Clean(a) && Clean(b)
    ensures Clean([line] + a + b)
  {
    CleanAppend([line], a);
    CleanAppend([line] + a, b);
  }

  /** The drawing is the scan walk's rows, one line each, when no stored path
      holds a newline: splitting a subtree's text and dropping blank lines
      lose nothing. */
  lemma {:induction false} FormatIsWalk(fs: Nodes.Store, path: string, indent: string)
    requires Nodes.ValidStore(fs) && NoNewlines(fs) && '\n' !in indent
    ensures Walk(fs, Scan, DirsOnly, Plain, path, indent).Ok?
    ensures var lines := Render(Walk(fs, Scan, DirsOnly, Plain, path, indent).value, Line);
            Clean(lines) && Format(fs, path, indent) == Text.Join(lines, "\n")
    decreases Nodes.Longer(fs, path), 1
  {
    var kids := ScanKids(fs, path);
    KidsLonger(fs, Scan, path);
    ScanWalkOk(fs, DirsOnly, Plain, path, indent);
    FormatAllIsWalk(fs, path, kids, 0, indent);
    var lines := FormatAll(fs, path, kids, 0, indent);
    ShownAll(lines);
  }

  /** A subtree's lines, split back out of its text, are its rows' lines. */
  lemma {:induction false} BelowIsWalk(fs: Nodes.Store, p: string, deeper: string)
    requires Nodes.ValidStore(fs) && NoNewlines(fs) && '\n' !in deeper
    ensures Walk(fs, Scan, DirsOnly, Plain, p, deeper).Ok?
    ensures var lines := Render(Walk(fs, Scan, DirsOnly, Plain, p, deeper).value, Line);
            Clean(lines) && Lines(Format(fs, p, deeper)) == lines
    decreases Nodes.Longer(fs, p), 2
  {
    FormatIsWalk(fs, p, deeper);
    var lines := Render(Walk(fs, Scan, DirsOnly, Plain, p, deeper).value, Line);
    if |lines| > 0 {
      Text.StripEmptyIffAllSpace(lines[0]);
      JoinNonEmpty(lines, "\n");
      Text.SplitJoin(lines, '\n');
    }
  }

  /** The children's lines are the scan walk's rows over them, one clean
      line each. */
  lemma {:induction false} FormatAllIsWalk(fs: Nodes.Store, parent: string, kids: seq<(string, string)>, i: nat,
                                           indent: string)
    requires Nodes.ValidStore(fs) && NoNewlines(fs) && '\n' !in indent
    requires i <= |kids|
    requires forall j :: 0 <= j < |kids| ==> kids[j].1 in fs.entries && |kids[j].1| > |parent|
    requires forall j :: 0 <= j < |kids| ==> '\n' !in kids[j].0
    ensures WalkAll(fs, Scan, DirsOnly, Plain, parent, kids, i, indent).Ok?
    ensures var lines := FormatAll(fs, parent, kids, i, indent);
            Clean(lines) && lines == Render(WalkAll(fs, Scan, DirsOnly, Plain, parent, kids, i, indent).value, Line)
    decreases Nodes.Longer(fs, parent), 0, |kids| - i, 1
  {
    if i < |kids| {
      FormatAllStep(fs, parent, kids, i, indent);
    } else {
      assert Present(fs, kids, i);
      ScanWalkAllOk(fs, DirsOnly, Plain, parent, kids, i, indent);
    }
  }

  /** The recursive step of `FormatAllIsWalk`: the later children and, for a
      directory, the child's subtree are drawn first. */
  lemma {:induction false} FormatAllStep(fs: Nodes.Store, parent: string, kids: seq<(string, string)>, i: nat,
                                         indent: string)
    requires Nodes.ValidStore(fs) && NoNewlines(fs) && '\n' !in indent
    requires i < |kids|
    requires forall j :: 0 <= j < |kids| ==> kids[j].1 in fs.entries && |kids[j].1| > |parent|
    requires forall j :: 0 <= j < |kids| ==> '\n' !in kids[j].0
    ensures WalkAll(fs, Scan, DirsOnly, Plain, parent, kids, i, indent).Ok?
    ensures var lines := FormatAll(fs, parent, kids, i, indent);
            Clean(lines) && lines == Render(WalkAll(fs, Scan, DirsOnly, Plain, parent, kids, i, indent).value, Line)
    decreases Nodes.Longer(fs, parent), 0, |kids| - i, 0
  {
    var p := kids[i].1;
    Nodes.LongerShrinks(fs, parent, p);
    FormatAllIsWalk(fs, parent, kids, i + 1, indent);
    if fs.entries[p].kind == Nodes.Directory {
      var deeper := indent + Step(Plain, i == |kids| - 1);
      assert '\n' !in deeper;
      BelowIsWalk(fs, p, deeper);
    }
    FormatAllCompose(fs, parent, kids, i, indent);
  }

  /** One child's line and its subtree's lines come first in the children's
      lines. */
  lemma FormatAllUnfold(fs: Nodes.Store, parent: string, kids: seq<(string, string)>, i: nat, indent: string)
    requires Nodes.ValidStore(fs)
    requires i < |kids|
    requires forall j :: 0 <= j < |kids| ==> kids[j].1 in fs.entries && |kids[j].1| > |parent|
    ensures var p := kids[i].1;
            var row := Row(indent, i == |kids| - 1, kids[i].0, p, fs.entries[p]);
            var below := if row.node.kind == Nodes.Directory then Lines(Format(fs, p, indent + Step(Plain, row.last))) else [];
            FormatAll(fs, parent, kids, i, indent) == [Line(row)] + below + FormatAll(fs, parent, kids, i + 1, indent)
  {
  }

  /** A child's line, its subtree's lines and the later children's lines
      are the walk's rows for them. */
  lemma FormatAllCompose(fs: Nodes.Store, parent: string, kids: seq<(string, string)>, i: nat, indent: string)
    requires Nodes.ValidStore(fs) && '\n' !in indent
    requires i < |kids|
    requires forall j :: 0 <= j < |kids| ==> kids[j].1 in fs.entries && |kids[j].1| > |parent|
    requires forall j :: 0 <= j < |kids| ==> '\n' !in kids[j].0
    requires WalkAll(fs, Scan, DirsOnly, Plain, parent, kids, i + 1, indent).Ok?
    requires var lines := FormatAll(fs, parent, kids, i + 1, indent);
             Clean(lines) && lines == Render(WalkAll(fs, Scan, DirsOnly, Plain, parent, kids, i + 1, indent).value, Line)
    requires var p := kids[i].1; var deeper := indent + Step(Plain, i == |kids| - 1);
             fs.entries[p].kind == Nodes.Directory ==>
               && Walk(fs, Scan, DirsOnly, Plain, p, deeper).Ok?
               && Clean(Render(Walk(fs, Scan, DirsOnly, Plain, p, deeper).value, Line))
               && Lines(Format(fs, p, deeper)) == Render(Walk(fs, Scan, DirsOnly, Plain, p, deeper).value, Line)
    ensures WalkAll(fs, Scan, DirsOnly, Plain, parent, kids, i, indent).Ok?
    ensures var lines := FormatAll(fs, parent, kids, i, indent);
            Clean(lines) && lines == Render(WalkAll(fs, Scan, DirsOnly, Plain, parent, kids, i, indent).value, Line)
  {
    assert Present(fs, kids, i);
    var p := kids[i].1;
    var row := Row(indent, i == |kids| - 1, kids[i].0, p, fs.entries[p]);
    var deeper := indent + Step(Plain, row.last);
    ScanWalkAllCons(fs, DirsOnly, Plain, parent, kids, i, indent);
    FormatAllUnfold(fs, parent, kids, i, indent);
    var rest := WalkAll(fs, Scan, DirsOnly, Plain, parent, kids, i + 1, indent).value;
    var sub := if row.node.kind == Nodes.Directory then Walk(fs, Scan, DirsOnly, Plain, p, deeper).value else [];
    var below := if row.node.kind == Nodes.Directory then Lines(Format(fs, p, deeper)) else [];
    LineClean(row);
    RenderCons(row, sub, rest, below, FormatAll(fs, parent, kids, i + 1, indent));
  }

  /** A row's line holds no newline when its indent and name hold none. */
  lemma LineClean(row: Row)
    requires '\n' !in row.indent && '\n' !in row.name
    ensures '\n' !in Line(row) && Shows(Line(row))
  {
    var tail := row.name + (if row.node.kind == Nodes.Directory then "/" else "");
    BranchShows(Line(row), row.indent, row.last, tail);
    assert Line(row) == row.indent + Branch(Plain, row.last) + tail;
    assert '\n' !in Branch(Plain, row.last);
  }

  /** Prepending a row and its subtree to drawn rows draws their lines. */
  lemma RenderCons(row: Row, sub: seq<Row>, rest: seq<Row>, below: seq<string>, restLines: seq<string>)
    requires '\n' !in Line(row) && Shows(Line(row))
    requires Clean(below) && below == Render(sub, Line)
    requires Clean(restLines) && restLines == Render(rest, Line)
    ensures Clean([Line(row)] + below + restLines)
    ensures [Line(row)] + below + restLines == Render([row] + sub + rest, Line)
  {
    CleanCons(Line(row), below, restLines);
    RenderAppend([row] + sub, rest, Line);
    RenderAppend([row], sub, Line);
    var head := Render([row], Line);
    assert head == [Line(row)];
    assert Render([row] + sub, Line) == [Line(row)] + below;
    assert Render([row] + sub + rest, Line) == ([Line(row)] + below) + restLines;
  }

  /** The first line of the children's lines is the first child's. */
  lemma FormatAllHead(fs: Nodes.Store, parent: string, kids: seq<(string, string)>, indent: string)
    requires Nodes.ValidStore(fs)
    requires 0 < |kids|
    requires forall j :: 0 <= j < |kids| ==> kids[j].1 in fs.entries && |kids[j].1| > |parent|
    ensures var lines := FormatAll(fs, parent, kids, 0, indent);
            |lines| > 0 && Shows(lines[0])
  {
    var isDir := fs.entries[kids[0].1].kind == Nodes.Directory;
    var line := indent + Branch(Plain, 0 == |kids| - 1) + kids[0].0 + (if isDir then "/" else "");
    assert FormatAll(fs, parent, kids, 0, indent)[0] == line;
    BranchShows(line, indent, 0 == |kids| - 1, kids[0].0 + (if isDir then "/" else ""));
  }

  /** The drawing is empty exactly when the scan finds no children. */
  lemma FormatEmptyIff(fs: Nodes.Store, path: string, indent: string)
    requires Nodes.ValidStore(fs)
    ensures Format(fs, path, indent) == "" <==> ScanKids(fs, path) == []
  {
    var kids := ScanKids(fs, path);
    KidsLonger(fs, Scan, path);
    var lines := FormatAll(fs, path, kids, 0, indent);
    if |kids| > 0 {
      FormatAllHead(fs, path, kids, indent);
      assert Shown(lines)[0] == lines[0];
      Text.StripEmptyIffAllSpace(lines[0]);
      JoinNonEmpty(Shown(lines), "\n");
    }
  }

  /** Split back at newlines, a non-empty drawing has no blank line. */
  lemma NoBlankLines(fs: Nodes.Store, path: string, indent: string)
    requires Nodes.ValidStore(fs) && NoNewlines(fs) && '\n' !in indent
    requires Format(fs, path, indent) != ""
    ensures forall k :: 0 <= k < |Text.Split(Format(fs, path, indent), '\n')| ==>
              Shows(Text.Split(Format(fs, path, indent), '\n')[k])
  {
    FormatIsWalk(fs, path, indent);
    var lines := Render(Walk(fs, Scan, DirsOnly, Plain, path, indent).value, Line);
    assert |lines| > 0;
    Text.SplitJoin(lines, '\n');
  }

  /** The top level of the drawing lists, by ascending name, every stored
      path whose parent is `path`, under its base name. */
  lemma TopLevel(fs: Nodes.Store, path: string, indent: string, rows: seq<Row>)
    requires Nodes.ValidStore(fs)
    requires Walk(fs, Scan, DirsOnly, Plain, path, indent) == Ok(rows)
    ensures var top := Level(rows, |indent|);
            && (forall j, k :: 0 <= j < k < |top| ==> Text.LessEq(top[j].name, top[k].name))
            && (forall j :: 0 <= j < |top| ==>
                  top[j].path in fs.entries && IsKid(path, top[j].path) && top[j].name == Paths.Basename(top[j].path))
            && (forall p :: p in fs.entries && IsKid(path, p) ==> Paths.Basename(p) in RowNames(top))
  {
    var top := Level(rows, |indent|);
    var kids := ScanKids(fs, path);
    assert Tops(top, kids, 0, indent);
    assert RowNames(top) == Names(kids);
    forall p | p in fs.entries && IsKid(path, p) ensures Paths.Basename(p) in RowNames(top) {
      ScanKidsComplete(fs, path, p);
    }
  }
}
