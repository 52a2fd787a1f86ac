/**
 The filesystem mode of the generate command: its argument check, and the
 conversion of the generated flat list of file paths into a node store that
 the mount command's simple tree drawing can show.

 The conversion walks the sorted paths. For each, it follows the path's
 directory parts from the root, creating every directory that is not yet
 stored and linking each part under its parent unless a link by that name
 exists; then it stores a file node at `"/" + path` and links it under the
 last directory by the path's last part. Any lookup of the children of a
 node without children is a `KeyError`, which ends the command.
 */
module GenerateCli {
  import opened Wrappers
  import opened Dicts
  import Text
  import Paths
  import Sorting
  import Nodes

  /** The argument check of the filesystem mode: a non-empty generation
      prompt needs exactly one target directory; otherwise the command exits
      with status 1 before generating anything. */
  function CheckArgs(prompt: Option<string>, files: seq<string>): (exit: Option<int>)
    ensures exit.Some? ==> exit.value == 1
  {
    if prompt.Some? && |prompt.value| > 0 && |files| != 1 then Some(1) else None
  }

  /** A generation goes ahead in filesystem mode only with one target, and
      without a prompt the check never refuses. */
  lemma CheckArgsIff(prompt: Option<string>, files: seq<string>)
    ensures CheckArgs(prompt, files).None? <==> prompt.None? || prompt.value == "" || |files| == 1
  {
  }

  /** `{"type": "directory", "children": {}}`. */
  function DirNode(): (n: Nodes.Node)
    ensures n.Valid() && n.kind == Nodes.Directory && n.children == Some(Empty())
  {
    Nodes.Node(Nodes.Directory, Nodes.Missing, Some(Empty()), Empty(), None)
  }

  /** `{"type": "file", "content": None}`: a file without children. */
  function FileNode(): (n: Nodes.Node)
    ensures n.Valid() && n.kind == Nodes.File && n.content == Nodes.Null && n.children.None?
  {
    Nodes.Node(Nodes.File, Nodes.Null, None, Empty(), None)
  }

  /** The store the conversion starts from: an empty root directory. */
  function Initial(): (fs: Nodes.Store)
    ensures Nodes.ValidStore(fs) && fs.keys == ["/"] && fs.entries["/"] == DirNode()
  {
    Dict(["/"], map["/" := DirNode()])
  }

  /** The path of a directory part below `path`: `os.path.join`, with
      backslashes turned into slashes. */
  function Next(path: string, part: string): string
  {
    Text.ReplaceChar(Paths.Join(path, part), '\\', '/')
  }

  /** The path reached by following `parts[i..]` from `path`. */
  function PathAfter(path: string, parts: seq<string>, i: nat): string
    requires i <= |parts|
    decreases |parts| - i
  {
    if i == |parts| then path else PathAfter(Next(path, parts[i]), parts, i + 1)
  }

  /** Storing a valid node: the store stays valid and only `k` changes. */
  lemma Puts(fs: Nodes.Store, k: string, n: Nodes.Node)
    requires Nodes.ValidStore(fs) && n.Valid()
    ensures Nodes.ValidStore(fs.Put(k, n)) && fs.Put(k, n).entries == fs.entries[k := n]
  {
    Nodes.PutValid(fs, k, n);
  }

  /** Linking a child by name: only that name changes. */
  lemma Links(c: Dict<string, string>, name: string, path: string)
    requires c.Valid()
    ensures c.Put(name, path).entries == c.entries[name := path]
  {
  }

  /** One directory part: store a new directory at its path unless one is
      stored there, then link it under the current node unless the current
      node already has a child by that name. */
  function Enter(fs: Nodes.Store, cur: string, part: string): (r: Result<Nodes.Store, Nodes.Error>)
    requires Nodes.ValidStore(fs) && cur in fs.entries
    ensures r.Err? <==> fs.entries[cur].children.None?
    ensures r.Ok? ==> Nodes.ValidStore(r.value) && Next(cur, part) in r.value.entries
  {
    var p := Next(cur, part);
    Puts(fs, p, DirNode());
    var fs1 := if p in fs.entries then fs else fs.Put(p, DirNode());
    var node := fs.entries[cur];
    match node.children
    case None => Err(Nodes.KeyError)
    case Some(c) =>
      if part in c.entries then Ok(fs1)
      else
        var n := node.(children := Some(c.Put(part, p)));
        Puts(fs1, cur, n);
        Ok(fs1.Put(cur, n))
  }

  /** The directory parts `parts[i..]`, from the node at `cur`; the store
      and the path of the last directory. */
  function Descend(fs: Nodes.Store, cur: string, parts: seq<string>, i: nat)
    : (r: Result<(Nodes.Store, string), Nodes.Error>)
    requires Nodes.ValidStore(fs) && cur in fs.entries && i <= |parts|
    ensures r.Ok? ==> Nodes.ValidStore(r.value.0) && r.value.1 in r.value.0.entries
    ensures r.Ok? ==> r.value.1 == PathAfter(cur, parts, i)
    decreases |parts| - i
  {
    if i == |parts| then Ok((fs, cur))
    else
      match Enter(fs, cur, parts[i])
      case Err(e) => Err(e)
      case Ok(fs1) => Descend(fs1, Next(cur, parts[i]), parts, i + 1)
  }

  /** The directory parts of a listed path: all but the last. */
  function DirParts(file: string): seq<string>
  {
    var parts := Text.Split(file, '/');
    parts[..|parts| - 1]
  }

  /** The last part of a listed path: the file's name. */
  function LastPart(file: string): string
  {
    var parts := Text.Split(file, '/');
    parts[|parts| - 1]
  }

  /** The path of the directory a listed file is linked under. */
  function DirOf(file: string): string
  {
    PathAfter("/", DirParts(file), 0)
  }

  /** One listed path: its directories, then the file node at `"/" + file`,
      linked under the last directory by its name. The link is made on the
      node that was current before the file node was stored: when the file
      replaces that very node, the link is lost with it. */
  function AddFile(fs: Nodes.Store, file: string): (r: Result<Nodes.Store, Nodes.Error>)
    requires Nodes.ValidStore(fs) && "/" in fs.entries
    ensures r.Ok? ==> Nodes.ValidStore(r.value) && "/" + file in r.value.entries
    ensures r.Ok? ==> r.value.entries["/" + file] == FileNode()
  {
    match Descend(fs, "/", DirParts(file), 0)
    case Err(e) => Err(e)
    case Ok(res) =>
      var fs1 := res.0;
      var cur := res.1;
      var fp := "/" + file;
      var node := fs1.entries[cur];
      Puts(fs1, fp, FileNode());
      var fs2 := fs1.Put(fp, FileNode());
      match node.children
      case None => Err(Nodes.KeyError)
      case Some(c) =>
        if cur == fp then Ok(fs2)
        else
          var n := node.(children := Some(c.Put(LastPart(file), fp)));
          Puts(fs2, cur, n);
          Ok(fs2.Put(cur, n))
  }

  /** The listed paths `files[i..]`, one after the other. */
  function Build(fs: Nodes.Store, files: seq<string>, i: nat): (r: Result<Nodes.Store, Nodes.Error>)
    requires Nodes.ValidStore(fs) && "/" in fs.entries && i <= |files|
    ensures r.Ok? ==> Nodes.ValidStore(r.value)
    decreases |files| - i
  {
    if i == |files| then Ok(fs)
    else
      match AddFile(fs, files[i])
      case Err(e) => Err(e)
      case Ok(fs1) =>
        KeepsRoot(fs, files[i]);
        Build(fs1, files, i + 1)
  }

  /** The conversion of the generated list: the listed paths in sorted order,
      from an empty root. */
  function ToTree(files: seq<string>): (r: Result<Nodes.Store, Nodes.Error>)
    ensures r.Ok? ==> Nodes.ValidStore(r.value)
  {
    Build(Initial(), Sorting.SortStrings(files), 0)
  }

  /** The later store keeps every path of the earlier one and every file
      node as it was. */
  ghost predicate Grows(fs: Nodes.Store, fs': Nodes.Store)
  {
    forall k :: k in fs.entries ==> k in fs'.entries && (fs.entries[k] == FileNode() ==> fs'.entries[k] == FileNode())
  }

  lemma GrowsTransitive(a: Nodes.Store, b: Nodes.Store, c: Nodes.Store)
    requires Grows(a, b) && Grows(b, c)
    ensures Grows(a, c)
  {
  }

  lemma EnterGrows(fs: Nodes.Store, cur: string, part: string)
    requires Nodes.ValidStore(fs) && cur in fs.entries
    requires Enter(fs, cur, part).Ok?
    ensures Grows(fs, Enter(fs, cur, part).value)
    ensures var c := Enter(fs, cur, part).value.entries[cur].children;
            c.Some? && part in c.value.entries
  {
    var p := Next(cur, part);
    Puts(fs, p, DirNode());
    var fs1 := if p in fs.entries then fs else fs.Put(p, DirNode());
    var node := fs.entries[cur];
    var c := node.children.value;
    var r := Enter(fs, cur, part).value;
    if part !in c.entries {
      var n := node.(children := Some(c.Put(part, p)));
      Puts(fs1, cur, n);
      Links(c, part, p);
      assert r.entries == fs1.entries[cur := n];
    }
    forall k | k in fs.entries && fs.entries[k] == FileNode() ensures r.entries[k] == FileNode() {
      assert k != cur;
    }
  }

  lemma {:induction false} DescendGrows(fs: Nodes.Store, cur: string, parts: seq<string>, i: nat)
    requires Nodes.ValidStore(fs) && cur in fs.entries && i <= |parts|
    requires Descend(fs, cur, parts, i).Ok?
    ensures Grows(fs, Descend(fs, cur, parts, i).value.0)
    decreases |parts| - i
  {
    if i < |parts| {
      var fs1 := Enter(fs, cur, parts[i]).value;
      EnterGrows(fs, cur, parts[i]);
      DescendGrows(fs1, Next(cur, parts[i]), parts, i + 1);
      GrowsTransitive(fs, fs1, Descend(fs1, Next(cur, parts[i]), parts, i + 1).value.0);
    }
  }

  /** A listed path only adds: what was stored stays, except that the
      file's own path now holds a file node. */
  lemma AddFileGrows(fs: Nodes.Store, file: string)
    requires Nodes.ValidStore(fs) && "/" in fs.entries
    requires AddFile(fs, file).Ok?
    ensures forall k :: k in fs.entries ==> k in AddFile(fs, file).value.entries
    ensures forall k :: k in fs.entries && k != "/" + file && fs.entries[k] == FileNode() ==>
              AddFile(fs, file).value.entries[k] == FileNode()
  {
    DescendGrows(fs, "/", DirParts(file), 0);
    var res := Descend(fs, "/", DirParts(file), 0).value;
    var fs1 := res.0;
    var cur := res.1;
    var fp := "/" + file;
    var node := fs1.entries[cur];
    Puts(fs1, fp, FileNode());
    var fs2 := fs1.Put(fp, FileNode());
    var r := AddFile(fs, file).value;
    if cur != fp {
      var n := node.(children := Some(node.children.value.Put(LastPart(file), fp)));
      Puts(fs2, cur, n);
      assert r.entries == fs2.entries[cur := n];
    }
  }

  lemma KeepsRoot(fs: Nodes.Store, file: string)
    requires Nodes.ValidStore(fs) && "/" in fs.entries
    requires AddFile(fs, file).Ok?
    ensures "/" in AddFile(fs, file).value.entries
  {
    AddFileGrows(fs, file);
  }

  /** The file is linked by its name under the directory its path leads to,
      unless the file node replaced that directory. */
  lemma AddFileLinks(fs: Nodes.Store, file: string)
    requires Nodes.ValidStore(fs) && "/" in fs.entries
    requires AddFile(fs, file).Ok?
    ensures DirOf(file) != "/" + file ==>
              var r := AddFile(fs, file).value;
              DirOf(file) in r.entries && r.entries[DirOf(file)].children.Some?
              && r.entries[DirOf(file)].children.value.Get(LastPart(file)) == Some("/" + file)
  {
  }

  /** Every listed path `files[..i]` already processed is a file node. */
  ghost predicate FilesStored(fs: Nodes.Store, files: seq<string>, i: nat)
    requires i <= |files|
  {
    forall j :: 0 <= j < i ==> "/" + files[j] in fs.entries && fs.entries["/" + files[j]] == FileNode()
  }

  /** A successful build leaves a file node at `"/" + f` for every listed
      path `f`: later paths never turn an earlier file into a directory
      (reaching a file as a directory is a `KeyError`). */
  lemma {:induction false} BuildStoresFiles(fs: Nodes.Store, files: seq<string>, i: nat)
    requires Nodes.ValidStore(fs) && "/" in fs.entries && i <= |files|
    requires FilesStored(fs, files, i)
    requires Build(fs, files, i).Ok?
    ensures FilesStored(Build(fs, files, i).value, files, |files|)
    decreases |files| - i
  {
    if i < |files| {
      var fs1 := AddFile(fs, files[i]).value;
      AddFileGrows(fs, files[i]);
      KeepsRoot(fs, files[i]);
      assert FilesStored(fs1, files, i + 1) by {
        forall j | 0 <= j < i + 1 ensures "/" + files[j] in fs1.entries && fs1.entries["/" + files[j]] == FileNode() {
          if j < i && "/" + files[j] != "/" + files[i] {
            assert fs.entries["/" + files[j]] == FileNode();
          }
        }
      }
      BuildStoresFiles(fs1, files, i + 1);
    }
  }

  /** Every path of the generated list is a file node in the converted
      store, and the root stays stored. */
  lemma ToTreeStoresFiles(files: seq<string>)
    requires ToTree(files).Ok?
    ensures forall f :: f in files ==> "/" + f in ToTree(files).value.entries
                                       && ToTree(files).value.entries["/" + f] == FileNode()
  {
    var sorted := Sorting.SortStrings(files);
    BuildStoresFiles(Initial(), sorted, 0);
    forall f | f in files ensures "/" + f in ToTree(files).value.entries && ToTree(files).value.entries["/" + f] == FileNode() {
      assert f in multiset(sorted);
      var j :| 0 <= j < |sorted| && sorted[j] == f;
    }
  }

  /** The empty path replaces the root with a file node: its directory is
      the root itself, so the link to it is made on the replaced root. */
  lemma EmptyPathReplacesRoot(fs: Nodes.Store)
    requires Nodes.ValidStore(fs) && "/" in fs.entries && fs.entries["/"].children.Some?
    ensures AddFile(fs, "").Ok? && AddFile(fs, "").value.entries["/"] == FileNode()
  {
    assert Text.Split("", '/') == [""];
    assert DirParts("") == [];
  }
}
