/**
 The depth-first walk shared by the tree renderers of both packages: the
 README generators, the llmfs `tree` generator and the mount command's
 `format_simple_tree`. Each of them visits a node's children one after the
 other, draws each behind a branch (`├── `, or `└── ` for the last one) and
 draws the subtree of a child it descends into one step further indented
 (`│   `, or four spaces below the last child).

 The walk is stated once, as the sequence of rows it visits; the renderers
 differ only in where children come from, which children are descended into,
 the colouring of the branches and how a row becomes text.
 */
module Outline {
  import opened Wrappers
  import opened Dicts
  import Text
  import Paths
  import Sorting
  import Nodes

  /** The ANSI escape codes of the touchfs README. */
  const Bold := "\U{1B}[1m"
  const Blue := "\U{1B}[34m"
  const Green := "\U{1B}[32m"
  const Yellow := "\U{1B}[33m"
  const Cyan := "\U{1B}[36m"
  const Magenta := "\U{1B}[35m"
  const Reset := "\U{1B}[0m"

  /** Whether branches and indentation are drawn in colour (touchfs README)
      or as plain text (every other renderer). */
  datatype Style = Plain | Coloured

  /** The branch drawn in front of a child. */
  function Branch(style: Style, last: bool): (r: string)
    ensures style.Plain? ==> r == (if last then "└── " else "├── ")
    ensures style.Coloured? ==> r == Yellow + (if last then "└── " else "├── ") + Reset
  {
    var glyph := if last then "└── " else "├── ";
    if style.Coloured? then Yellow + glyph + Reset else glyph
  }

  /** What a child's subtree is indented by, beyond the child's own indent. */
  function Step(style: Style, last: bool): (r: string)
    ensures style.Plain? ==> r == (if last then "    " else "│   ")
    ensures style.Coloured? ==> r == Yellow + (if last then "    " else "│   ") + Reset
    ensures |r| >= 4
  {
    var glyph := if last then "    " else "│   ";
    if style.Coloured? then Yellow + glyph + Reset else glyph
  }

  /** Where the walk takes a node's children from. */
  datatype Source =
    | Sorted   // `sorted(children.keys())` of the node's children map
    | Stored   // `list(children.keys())`: the children map's own order
    | Scan     // every other stored path whose `dirname` is the node, by sorted name

  /** Which children the walk descends into. */
  datatype Descent =
    | DirsOnly     // `if child.type == "directory"`
    | AllButFiles  // the `else` of `if child.type == "file"`

  predicate Descends(d: Descent, k: Nodes.Kind)
  {
    if d.DirsOnly? then k == Nodes.Directory else k != Nodes.File
  }

  /** A node's children map; a node without one has no children, as
      `children or {}` and `get('children', {})` read it. */
  function ChildMap(n: Nodes.Node): (r: Dict<string, string>)
    requires n.Valid()
    ensures r.Valid()
    ensures n.children.Some? ==> r == n.children.value
    ensures n.children.None? ==> r.keys == []
  {
    if n.children.Some? then n.children.value else Empty()
  }

  /** The names of a list of `(name, path)` children. */
  function Names(kids: seq<(string, string)>): (r: seq<string>)
    ensures |r| == |kids|
    ensures forall i :: 0 <= i < |kids| ==> r[i] == kids[i].0
  {
    seq(|kids|, i requires 0 <= i < |kids| => kids[i].0)
  }

  /** The names of a children map, sorted or in the map's own order. */
  function Ordered(c: Dict<string, string>, sorted: bool): (names: seq<string>)
    requires c.Valid()
    ensures multiset(names) == multiset(c.keys)
    ensures forall i :: 0 <= i < |names| ==> names[i] in c.entries
    ensures sorted ==> forall i, j :: 0 <= i < j < |names| ==> Text.LessEq(names[i], names[j])
    ensures !sorted ==> names == c.keys
  {
    var names := if sorted then Sorting.SortStrings(c.keys) else c.keys;
    assert forall i :: 0 <= i < |names| ==> names[i] in c.entries by {
      forall i | 0 <= i < |names| ensures names[i] in c.entries {
        assert names[i] in multiset(names);
      }
    }
    names
  }

  /** The `(name, path)` entries of a children map, by sorted name or in the
      map's own order. */
  function Pairs(c: Dict<string, string>, sorted: bool): (r: seq<(string, string)>)
    requires c.Valid()
    ensures multiset(Names(r)) == multiset(c.keys)
    ensures forall i :: 0 <= i < |r| ==> r[i].0 in c.entries && r[i].1 == c.entries[r[i].0]
    ensures sorted ==> forall i, j :: 0 <= i < j < |r| ==> Text.LessEq(r[i].0, r[j].0)
    ensures !sorted ==> Names(r) == c.keys
  {
    var names := Ordered(c, sorted);
    var r := seq(|names|, i requires 0 <= i < |names| => (names[i], c.entries[names[i]]));
    assert Names(r) == names;
    r
  }

  /** The children of a node taken from its children map. */
  function LinkKids(n: Nodes.Node, sorted: bool): (r: seq<(string, string)>)
    requires n.Valid()
  {
    Pairs(ChildMap(n), sorted)
  }

  /** `dirname(p)` is a prefix of `p`. */
  lemma DirnamePrefix(p: string)
    ensures Paths.Dirname(p) == p[..|Paths.Dirname(p)|]
  {
    var head := p[..Paths.RFind(p, '/') + 1];
    if |head| > 0 && !Paths.AllSlashes(head) {
      var d := Paths.RStripSlashes(head);
      assert d == head[..|d|];
    }
  }

  /** A path whose parent is `path` and which is not `path` itself is longer
      than `path`. */
  lemma ChildLonger(p: string, path: string)
    requires p != path && Paths.Dirname(p) == path
    ensures |p| > |path|
  {
    DirnamePrefix(p);
  }

  /** `children[name(p)] = p` for every stored path `p` that `isKid`
      accepts, in the store's order: a later path with the same name
      overwrites an earlier one. */
  function ScanMap(keys: seq<string>, isKid: string -> bool, name: string -> string): (r: Dict<string, string>)
    ensures r.Valid()
    ensures forall k :: k in r.entries ==> r.entries[k] in keys && isKid(r.entries[k]) && name(r.entries[k]) == k
    ensures forall i :: 0 <= i < |keys| && isKid(keys[i]) ==> name(keys[i]) in r.entries
    decreases |keys|
  {
    if |keys| == 0 then Empty()
    else
      var prev := ScanMap(keys[..|keys| - 1], isKid, name);
      var p := keys[|keys| - 1];
      assert forall i :: 0 <= i < |keys| - 1 ==> keys[..|keys| - 1][i] == keys[i];
      if isKid(p) then prev.Put(name(p), p) else prev
  }

  /** `p` is a child of `path` as `format_simple_tree` finds children. */
  predicate IsKid(path: string, p: string)
  {
    p != path && Paths.Dirname(p) == path
  }

  /** The children `format_simple_tree` finds for `path`, by sorted name:
      stored paths whose parent is `path`, each under its base name. */
  function ScanKids(fs: Nodes.Store, path: string): (r: seq<(string, string)>)
    requires Nodes.ValidStore(fs)
    ensures forall i :: 0 <= i < |r| ==>
              r[i].1 in fs.entries && IsKid(path, r[i].1) && Paths.Basename(r[i].1) == r[i].0
    ensures forall i, j :: 0 <= i < j < |r| ==> Text.LessEq(r[i].0, r[j].0)
  {
    Pairs(ScanMap(fs.keys, p => IsKid(path, p), Paths.Basename), true)
  }

  /** Every stored child of `path` is found, under its base name. */
  lemma ScanKidsComplete(fs: Nodes.Store, path: string, p: string)
    requires Nodes.ValidStore(fs)
    requires p in fs.entries && IsKid(path, p)
    ensures Paths.Basename(p) in Names(ScanKids(fs, path))
  {
    var c := ScanMap(fs.keys, q => IsKid(path, q), Paths.Basename);
    var i :| 0 <= i < |fs.keys| && fs.keys[i] == p;
    assert Paths.Basename(p) in multiset(c.keys);
  }

  /** The children of `path`: from its children map (a missing node is a
      `KeyError`) or from the scan of all stored paths. */
  function Kids(fs: Nodes.Store, src: Source, path: string): (r: Result<seq<(string, string)>, Nodes.Error>)
    requires Nodes.ValidStore(fs)
    ensures r.Ok? <==> src.Scan? || path in fs.entries
    ensures r.Err? ==> r.error == Nodes.KeyError
    ensures src.Scan? ==> r == Ok(ScanKids(fs, path))
    ensures src.Sorted? && r.Ok? ==> r.value == LinkKids(fs.entries[path], true)
    ensures src.Stored? && r.Ok? ==> r.value == LinkKids(fs.entries[path], false)
  {
    if src.Scan? then Ok(ScanKids(fs, path))
    else if path !in fs.entries then Err(Nodes.KeyError)
    else Ok(LinkKids(fs.entries[path], src.Sorted?))
  }

  /** In a store the walk terminates on, every child outruns its parent. */
  lemma KidsLonger(fs: Nodes.Store, src: Source, path: string)
    requires Nodes.ValidStore(fs) && (!src.Scan? ==> Nodes.Descending(fs))
    requires Kids(fs, src, path).Ok?
    ensures var kids := Kids(fs, src, path).value;
            forall j :: 0 <= j < |kids| ==> |kids[j].1| > |path|
  {
    var kids := Kids(fs, src, path).value;
    forall j | 0 <= j < |kids| ensures |kids[j].1| > |path| {
      if src.Scan? {
        ChildLonger(kids[j].1, path);
      } else {
        var c := fs.entries[path].children.value;
        assert kids[j].0 in c.entries;
      }
    }
  }

  /** One drawn child: its indent, whether it is its parent's last child, the
      name it is drawn under, its path and its node. */
  datatype Row = Row(indent: string, last: bool, name: string, path: string, node: Nodes.Node)

  /** The walk's preconditions: a well-formed store, and for the walks that
      follow children links, links that lead to longer paths. */
  ghost predicate Walkable(fs: Nodes.Store, src: Source)
  {
    Nodes.ValidStore(fs) && (!src.Scan? ==> Nodes.Descending(fs))
  }

  /** The rows drawn at depth `w`: those whose indent has length `w`. */
  function Level(rows: seq<Row>, w: nat): (r: seq<Row>)
    ensures |r| <= |rows|
  {
    if |rows| == 0 then []
    else (if |rows[0].indent| == w then [rows[0]] else []) + Level(rows[1..], w)
  }

  lemma {:induction false} LevelAppend(a: seq<Row>, b: seq<Row>, w: nat)
    ensures Level(a + b, w) == Level(a, w) + Level(b, w)
    decreases |a|
  {
    if |a| > 0 {
      assert (a + b)[1..] == a[1..] + b;
      LevelAppend(a[1..], b, w);
    } else {
      assert a + b == b;
    }
  }

  lemma {:induction false} LevelDeeper(rows: seq<Row>, w: nat)
    requires forall k :: 0 <= k < |rows| ==> |rows[k].indent| > w
    ensures Level(rows, w) == []
    decreases |rows|
  {
    if |rows| > 0 {
      LevelDeeper(rows[1..], w);
    }
  }

  /** Every row is indented at least by `indent`. */
  predicate Beneath(rows: seq<Row>, indent: string)
  {
    forall k :: 0 <= k < |rows| ==> |rows[k].indent| >= |indent| && rows[k].indent[..|indent|] == indent
  }

  /** The rows stand for stored nodes. */
  predicate Stored(fs: Nodes.Store, rows: seq<Row>)
  {
    forall k :: 0 <= k < |rows| ==> rows[k].path in fs.entries && rows[k].node == fs.entries[rows[k].path]
  }

  /** Nothing is drawn beneath a child the walk does not descend into: the
      row after it is no deeper. */
  predicate LeavesFlat(rows: seq<Row>, d: Descent)
  {
    forall k :: 0 <= k < |rows| - 1 && !Descends(d, rows[k].node.kind) ==> |rows[k + 1].indent| <= |rows[k].indent|
  }

  /** The top-level rows are the children `kids[i..]`, in order, each marked
      last exactly when it is the final child. */
  predicate Tops(top: seq<Row>, kids: seq<(string, string)>, i: nat, indent: string)
    requires i <= |kids|
  {
    && |top| == |kids| - i
    && forall j :: 0 <= j < |top| ==>
         && top[j].name == kids[i + j].0 && top[j].path == kids[i + j].1
         && top[j].indent == indent && (top[j].last <==> i + j == |kids| - 1)
  }

  /** What the walk keeps of the rows of `kids[i..]` drawn at `indent`: they
      stand for stored nodes, sit beneath `indent`, nest nothing under a child
      that is not descended into, start at `indent` itself, and their
      top-level rows are those children in order. */
  predicate Drawn(fs: Nodes.Store, d: Descent, rows: seq<Row>, kids: seq<(string, string)>, i: nat, indent: string)
    requires i <= |kids|
  {
    && Stored(fs, rows) && Beneath(rows, indent) && LeavesFlat(rows, d)
    && Tops(Level(rows, |indent|), kids, i, indent)
    && (|rows| > 0 ==> rows[0].indent == indent)
  }

  /** The rows the walk draws below `path`: each child, then the subtree of a
      child it descends into, then the following children. */
  function Walk(fs: Nodes.Store, src: Source, d: Descent, style: Style, path: string, indent: string)
    : (r: Result<seq<Row>, Nodes.Error>)
    requires Walkable(fs, src)
    ensures !src.Scan? && path !in fs.entries ==> r == Err(Nodes.KeyError)
    ensures r.Ok? ==> Kids(fs, src, path).Ok? && Drawn(fs, d, r.value, Kids(fs, src, path).value, 0, indent)
    decreases Nodes.Longer(fs, path), 1
  {
    match Kids(fs, src, path)
    case Err(e) => Err(e)
    case Ok(kids) =>
      KidsLonger(fs, src, path);
      WalkAll(fs, src, d, style, path, kids, 0, indent)
  }

  /** Every child from `kids[i]` on is stored. */
  predicate Present(fs: Nodes.Store, kids: seq<(string, string)>, i: nat)
  {
    forall j :: i <= j < |kids| ==> kids[j].1 in fs.entries
  }

  /** The rows of `kids[i..]` and their subtrees. */
  function WalkAll(fs: Nodes.Store, src: Source, d: Descent, style: Style, parent: string,
                   kids: seq<(string, string)>, i: nat, indent: string)
    : (r: Result<seq<Row>, Nodes.Error>)
    requires Walkable(fs, src)
    requires i <= |kids|
    requires forall j :: 0 <= j < |kids| ==> |kids[j].1| > |parent|
    ensures r.Ok? ==> Drawn(fs, d, r.value, kids, i, indent)
    decreases Nodes.Longer(fs, parent), 0, |kids| - i
  {
    if i == |kids| then Ok([])
    else if kids[i].1 !in fs.entries then Err(Nodes.KeyError)
    else
      var row := Row(indent, i == |kids| - 1, kids[i].0, kids[i].1, fs.entries[kids[i].1]);
      var deeper := indent + Step(style, row.last);
      Nodes.LongerShrinks(fs, parent, row.path);
      var below := if Descends(d, row.node.kind) then Walk(fs, src, d, style, row.path, deeper) else Ok([]);
      var kb := if Descends(d, row.node.kind) then Kids(fs, src, row.path) else Ok([]);
      match below
      case Err(e) => Err(e)
      case Ok(sub) =>
        match WalkAll(fs, src, d, style, parent, kids, i + 1, indent)
        case Err(e) => Err(e)
        case Ok(rest) =>
          WalkAllStep(fs, d, style, row, sub, kb.value, rest, kids, i, indent);
          Ok([row] + sub + rest)
  }

  /** A child missing from the store is a `KeyError` of the whole walk. */
  lemma {:induction false} WalkAllMissing(fs: Nodes.Store, src: Source, d: Descent, style: Style, parent: string,
                                          kids: seq<(string, string)>, i: nat, indent: string)
    requires Walkable(fs, src)
    requires i <= |kids|
    requires forall j :: 0 <= j < |kids| ==> |kids[j].1| > |parent|
    requires !Present(fs, kids, i)
    ensures WalkAll(fs, src, d, style, parent, kids, i, indent).Err?
    decreases |kids| - i
  {
    if kids[i].1 in fs.entries {
      WalkAllMissing(fs, src, d, style, parent, kids, i + 1, indent);
    }
  }

  /** The walk over the scanned children never fails: every child it finds
      is stored. */
  lemma {:induction false} ScanWalkOk(fs: Nodes.Store, d: Descent, style: Style, path: string, indent: string)
    requires Nodes.ValidStore(fs)
    ensures Walk(fs, Scan, d, style, path, indent).Ok?
    decreases Nodes.Longer(fs, path), 1
  {
    KidsLonger(fs, Scan, path);
    ScanWalkAllOk(fs, d, style, path, ScanKids(fs, path), 0, indent);
  }

  lemma {:induction false} ScanWalkAllOk(fs: Nodes.Store, d: Descent, style: Style, parent: string,
                                         kids: seq<(string, string)>, i: nat, indent: string)
    requires Nodes.ValidStore(fs)
    requires i <= |kids|
    requires forall j :: 0 <= j < |kids| ==> |kids[j].1| > |parent|
    requires Present(fs, kids, i)
    ensures WalkAll(fs, Scan, d, style, parent, kids, i, indent).Ok?
    decreases Nodes.Longer(fs, parent), 0, |kids| - i
  {
    if i < |kids| {
      var p := kids[i].1;
      Nodes.LongerShrinks(fs, parent, p);
      if Descends(d, fs.entries[p].kind) {
        ScanWalkOk(fs, d, style, p, indent + Step(style, i == |kids| - 1));
      }
      ScanWalkAllOk(fs, d, style, parent, kids, i + 1, indent);
    }
  }

  /** Putting one child's row in front of its subtree and the rows of the
      following children keeps the walk's facts. */
  /** One step of the scan walk: the child's row, its subtree when the walk
      descends into it, then the rows of the later children. */
  lemma ScanWalkAllCons(fs: Nodes.Store, d: Descent, style: Style, parent: string,
                        kids: seq<(string, string)>, i: nat, indent: string)
    requires Nodes.ValidStore(fs)
    requires i < |kids|
    requires forall j :: 0 <= j < |kids| ==> |kids[j].1| > |parent|
    requires Present(fs, kids, i)
    ensures WalkAll(fs, Scan, d, style, parent, kids, i + 1, indent).Ok?
    ensures Descends(d, fs.entries[kids[i].1].kind) ==>
              Walk(fs, Scan, d, style, kids[i].1, indent + Step(style, i == |kids| - 1)).Ok?
    ensures var row := Row(indent, i == |kids| - 1, kids[i].0, kids[i].1, fs.entries[kids[i].1]);
            var sub := if Descends(d, row.node.kind) then Walk(fs, Scan, d, style, row.path, indent + Step(style, row.last)).value else [];
            WalkAll(fs, Scan, d, style, parent, kids, i, indent) == Ok([row] + sub + WalkAll(fs, Scan, d, style, parent, kids, i + 1, indent).value)
  {
    var p := kids[i].1;
    Nodes.LongerShrinks(fs, parent, p);
    if Descends(d, fs.entries[p].kind) {
      ScanWalkOk(fs, d, style, p, indent + Step(style, i == |kids| - 1));
    }
    ScanWalkAllOk(fs, d, style, parent, kids, i + 1, indent);
  }

  lemma WalkAllStep(fs: Nodes.Store, d: Descent, style: Style, row: Row, sub: seq<Row>, kb: seq<(string, string)>,
                    rest: seq<Row>, kids: seq<(string, string)>, i: nat, indent: string)
    requires i < |kids|
    requires row == Row(indent, i == |kids| - 1, kids[i].0, kids[i].1, row.node)
    requires row.path in fs.entries && row.node == fs.entries[row.path]
    requires !Descends(d, row.node.kind) ==> sub == []
    requires sub == [] || Drawn(fs, d, sub, kb, 0, indent + Step(style, row.last))
    requires Drawn(fs, d, rest, kids, i + 1, indent)
    ensures Drawn(fs, d, [row] + sub + rest, kids, i, indent)
  {
    StepBeneath(row, sub, rest, indent + Step(style, row.last), indent);
    StepLevel(row, sub, rest, kids, i, indent);
    StepFlat(d, row, sub, rest);
    var r := [row] + sub + rest;
    forall k | 0 <= k < |r| ensures r[k].path in fs.entries && r[k].node == fs.entries[r[k].path] {
      if 0 < k <= |sub| { assert r[k] == sub[k - 1]; }
      else if k > |sub| { assert r[k] == rest[k - 1 - |sub|]; }
    }
  }

  lemma StepBeneath(row: Row, sub: seq<Row>, rest: seq<Row>, deeper: string, indent: string)
    requires row.indent == indent && |deeper| > |indent| && deeper[..|indent|] == indent
    requires Beneath(sub, deeper) && Beneath(rest, indent)
    ensures Beneath([row] + sub + rest, indent)
    ensures forall k :: 0 <= k < |sub| ==> |sub[k].indent| > |indent|
  {
    var r := [row] + sub + rest;
    forall k | 0 <= k < |sub| ensures |sub[k].indent| > |indent| && sub[k].indent[..|indent|] == indent {
      assert sub[k].indent[..|deeper|] == deeper;
    }
    forall k | 0 <= k < |r| ensures |r[k].indent| >= |indent| && r[k].indent[..|indent|] == indent {
      if 0 < k <= |sub| { assert r[k] == sub[k - 1]; }
      else if k > |sub| { assert r[k] == rest[k - 1 - |sub|]; }
    }
  }

  lemma StepLevel(row: Row, sub: seq<Row>, rest: seq<Row>, kids: seq<(string, string)>, i: nat, indent: string)
    requires i < |kids|
    requires row == Row(indent, i == |kids| - 1, kids[i].0, kids[i].1, row.node)
    requires forall k :: 0 <= k < |sub| ==> |sub[k].indent| > |indent|
    requires Tops(Level(rest, |indent|), kids, i + 1, indent)
    ensures Tops(Level([row] + sub + rest, |indent|), kids, i, indent)
  {
    LevelAppend([row] + sub, rest, |indent|);
    LevelAppend([row], sub, |indent|);
    LevelDeeper(sub, |indent|);
    assert Level([row], |indent|) == [row];
    var top := Level([row] + sub + rest, |indent|);
    assert top == [row] + Level(rest, |indent|);
    forall j | 0 <= j < |top|
      ensures top[j].name == kids[i + j].0 && top[j].path == kids[i + j].1
              && top[j].indent == indent && (top[j].last <==> i + j == |kids| - 1)
    {
      if j > 0 { assert top[j] == Level(rest, |indent|)[j - 1]; }
    }
  }

  lemma StepFlat(d: Descent, row: Row, sub: seq<Row>, rest: seq<Row>)
    requires !Descends(d, row.node.kind) ==> sub == []
    requires forall k :: 0 <= k < |sub| ==> |sub[k].indent| > |row.indent|
    requires LeavesFlat(sub, d) && LeavesFlat(rest, d)
    requires |rest| > 0 ==> rest[0].indent == row.indent
    ensures LeavesFlat([row] + sub + rest, d)
  {
    var r := [row] + sub + rest;
    forall k | 0 <= k < |r| - 1 && !Descends(d, r[k].node.kind) ensures |r[k + 1].indent| <= |r[k].indent| {
      if k == 0 {
        assert sub == [];
        assert r[1] == rest[0];
      } else if k < |sub| {
        assert r[k] == sub[k - 1];
        assert r[k + 1] == sub[k];
      } else if k == |sub| {
        assert r[k] == sub[k - 1];
        assert r[k + 1] == rest[0];
      } else {
        assert r[k] == rest[k - 1 - |sub|];
        assert r[k + 1] == rest[k - |sub|];
      }
    }
  }

  /** One line per row. */
  function Render(rows: seq<Row>, line: Row -> string): (r: seq<string>)
    ensures |r| == |rows|
    ensures forall k :: 0 <= k < |rows| ==> r[k] == line(rows[k])
  {
    seq(|rows|, k requires 0 <= k < |rows| => line(rows[k]))
  }

  lemma RenderAppend(a: seq<Row>, b: seq<Row>, line: Row -> string)
    ensures Render(a + b, line) == Render(a, line) + Render(b, line)
  {
  }

  /** The lines of each row, one row after the other. */
  function Flatten(rows: seq<Row>, lines: Row -> seq<string>): seq<string>
  {
    if |rows| == 0 then [] else lines(rows[0]) + Flatten(rows[1..], lines)
  }

  /** The names of a list of rows. */
  function RowNames(rows: seq<Row>): (r: seq<string>)
    ensures |r| == |rows|
    ensures forall k :: 0 <= k < |rows| ==> r[k] == rows[k].name
  {
    seq(|rows|, k requires 0 <= k < |rows| => rows[k].name)
  }

  /** A level drawn from a children map by sorted name holds each of the
      map's entries once, in ascending name order, the last one marked. */
  predicate SortedLevel(c: Dict<string, string>, top: seq<Row>)
  {
    && multiset(RowNames(top)) == multiset(c.keys)
    && (forall j, k :: 0 <= j < k < |top| ==> Text.LessEq(top[j].name, top[k].name))
    && (forall j :: 0 <= j < |top| ==> top[j].name in c.entries && top[j].path == c.entries[top[j].name])
    && (forall j :: 0 <= j < |top| ==> (top[j].last <==> j == |top| - 1))
  }

  lemma SortedTops(c: Dict<string, string>, top: seq<Row>, indent: string)
    requires c.Valid()
    requires Tops(top, Pairs(c, true), 0, indent)
    ensures SortedLevel(c, top)
  {
    var kids := Pairs(c, true);
    assert RowNames(top) == Names(kids);
  }

  /** The top level of a walk by sorted children map is that map's entries
      in sorted order. */
  lemma SortedWalkLevel(fs: Nodes.Store, d: Descent, style: Style, path: string, indent: string, rows: seq<Row>)
    requires Walkable(fs, Sorted)
    requires Walk(fs, Sorted, d, style, path, indent) == Ok(rows)
    ensures path in fs.entries && SortedLevel(ChildMap(fs.entries[path]), Level(rows, |indent|))
  {
    var c := ChildMap(fs.entries[path]);
    assert Kids(fs, Sorted, path) == Ok(Pairs(c, true));
    SortedTops(c, Level(rows, |indent|), indent);
  }
}
