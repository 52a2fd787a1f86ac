/**
 The plugin registries: an insertion-ordered dictionary from generator name
 to generator, where registering a name again replaces the generator in its
 old position, and lookup returns the first generator, in registration order,
 whose `can_handle` holds.

 The older registry is a process-wide singleton holding the readme and default
 generators. The newer one registers nine built-ins in a fixed order and, when
 it is given the filesystem, installs every plugin's proc files, creating the
 missing directories above them.
 */
module Registry {
  import opened Wrappers
  import opened Dicts
  import Text
  import Paths
  import Nodes
  import Plugins

  type Generators = Dict<string, Plugins.Plugin>

  /** `register_generator(g)`: the generator is filed under its name; a name
      already present keeps its position and gets the new generator. */
  function Register(gens: Generators, g: Plugins.Plugin): (r: Generators)
    requires gens.Valid()
    ensures r.Valid()
    ensures r.Get(Plugins.NameOf(g)) == Some(g)
    ensures forall n :: n != Plugins.NameOf(g) ==> r.Get(n) == gens.Get(n)
    ensures Plugins.NameOf(g) in gens.keys ==> r.keys == gens.keys
    ensures Plugins.NameOf(g) !in gens.keys ==> r.keys == gens.keys + [Plugins.NameOf(g)]
  {
    gens.Put(Plugins.NameOf(g), g)
  }

  /** The position of the first generator that claims the path and node. */
  function FirstMatch(gs: seq<Plugins.Plugin>, path: string, node: Nodes.Node): (r: Option<nat>)
    ensures r.Some? ==> r.value < |gs| && Plugins.CanHandle(gs[r.value], path, node)
    ensures r.Some? ==> forall j :: 0 <= j < r.value ==> !Plugins.CanHandle(gs[j], path, node)
    ensures r.None? <==> forall j :: 0 <= j < |gs| ==> !Plugins.CanHandle(gs[j], path, node)
  {
    if |gs| == 0 then None
    else if Plugins.CanHandle(gs[0], path, node) then Some(0)
    else
      var rest := FirstMatch(gs[1..], path, node);
      assert forall j :: 1 <= j < |gs| ==> gs[1..][j - 1] == gs[j];
      if rest.None? then None else Some(rest.value + 1)
  }

  /** `get_generator(path, node)`: the first registered generator that
      claims the file, or nothing. */
  function GetGenerator(gens: Generators, path: string, node: Nodes.Node): (r: Option<Plugins.Plugin>)
    requires gens.Valid()
    ensures r.Some? ==> exists i :: 0 <= i < |gens.keys| && r.value == gens.entries[gens.keys[i]]
                          && Plugins.CanHandle(r.value, path, node)
                          && forall j :: 0 <= j < i ==> !Plugins.CanHandle(gens.entries[gens.keys[j]], path, node)
    ensures r.None? <==> forall k :: k in gens.entries ==> !Plugins.CanHandle(gens.entries[k], path, node)
  {
    var vs := gens.Values();
    match FirstMatch(vs, path, node)
    case None =>
      assert forall k :: k in gens.entries ==> exists i :: 0 <= i < |gens.keys| && gens.keys[i] == k;
      None
    case Some(i) => Some(vs[i])
  }

  /** Registering every generator of a list in turn. */
  function RegisterAll(gens: Generators, gs: seq<Plugins.Plugin>): (r: Generators)
    requires gens.Valid()
    ensures r.Valid()
    decreases |gs|
  {
    if |gs| == 0 then gens else RegisterAll(Register(gens, gs[0]), gs[1..])
  }

  /** Every generator a registry holds was registered into it or was there before. */
  lemma {:induction false} RegisterAllValues(gens: Generators, gs: seq<Plugins.Plugin>)
    requires gens.Valid()
    requires forall k :: k in gens.entries ==> Plugins.ValidPlugin(gens.entries[k])
    requires forall i :: 0 <= i < |gs| ==> Plugins.ValidPlugin(gs[i])
    ensures forall k :: k in RegisterAll(gens, gs).entries ==> Plugins.ValidPlugin(RegisterAll(gens, gs).entries[k])
    ensures forall i :: 0 <= i < |RegisterAll(gens, gs).Values()| ==> Plugins.ValidPlugin(RegisterAll(gens, gs).Values()[i])
    decreases |gs|
  {
    if |gs| > 0 {
      var next := Register(gens, gs[0]);
      assert forall k :: k in next.entries ==> Plugins.ValidPlugin(next.entries[k]) by {
        forall k | k in next.entries ensures Plugins.ValidPlugin(next.entries[k]) {
          if k != Plugins.NameOf(gs[0]) { assert next.Get(k) == gens.Get(k); }
        }
      }
      assert forall i :: 0 <= i < |gs[1..]| ==> gs[1..][i] == gs[i + 1];
      RegisterAllValues(next, gs[1..]);
    } else {
      var vs := gens.Values();
      assert forall i :: 0 <= i < |vs| ==> vs[i] == gens.entries[gens.keys[i]];
    }
  }

  predicate DistinctNames(gs: seq<Plugins.Plugin>)
  {
    forall i, j :: 0 <= i < j < |gs| ==> Plugins.NameOf(gs[i]) != Plugins.NameOf(gs[j])
  }

  function Names(gs: seq<Plugins.Plugin>): (r: seq<string>)
    ensures |r| == |gs| && forall i :: 0 <= i < |gs| ==> r[i] == Plugins.NameOf(gs[i])
  {
    if |gs| == 0 then [] else [Plugins.NameOf(gs[0])] + Names(gs[1..])
  }

  lemma AppendAssoc<T>(a: seq<T>, b: seq<T>, c: seq<T>)
    ensures a + (b + c) == (a + b) + c
  {
  }

  /** Registering generators whose names are new appends the names in order. */
  lemma {:induction false} RegisterAllKeys(gens: Generators, gs: seq<Plugins.Plugin>)
    requires gens.Valid() && DistinctNames(gs)
    requires forall i :: 0 <= i < |gs| ==> Plugins.NameOf(gs[i]) !in gens.keys
    ensures RegisterAll(gens, gs).keys == gens.keys + Names(gs)
    decreases |gs|
  {
    if |gs| > 0 {
      var n0 := Plugins.NameOf(gs[0]);
      var next := Register(gens, gs[0]);
      assert next.keys == gens.keys + [n0];
      var rest := gs[1..];
      assert forall i :: 0 <= i < |rest| ==> Plugins.NameOf(rest[i]) == Plugins.NameOf(gs[i + 1]);
      assert forall i :: 0 <= i < |rest| ==> Plugins.NameOf(rest[i]) !in next.keys;
      assert DistinctNames(rest);
      RegisterAllKeys(next, rest);
      assert Names(gs) == [n0] + Names(rest);
      AppendAssoc(gens.keys, [n0], Names(rest));
    }
  }

  /** Registering generators with distinct names files each under its name. */
  lemma {:induction false} RegisterAllGet(gens: Generators, gs: seq<Plugins.Plugin>)
    requires gens.Valid() && DistinctNames(gs)
    ensures forall i :: 0 <= i < |gs| ==> RegisterAll(gens, gs).Get(Plugins.NameOf(gs[i])) == Some(gs[i])
    decreases |gs|
  {
    if |gs| > 0 {
      var next := Register(gens, gs[0]);
      var rest := gs[1..];
      assert forall i :: 0 <= i < |rest| ==> rest[i] == gs[i + 1];
      assert DistinctNames(rest);
      RegisterAllGet(next, rest);
      RegisterAllKeeps(next, rest, Plugins.NameOf(gs[0]));
    }
  }

  /** A name no later generator takes keeps its generator. */
  lemma {:induction false} RegisterAllKeeps(gens: Generators, gs: seq<Plugins.Plugin>, n: string)
    requires gens.Valid()
    requires forall i :: 0 <= i < |gs| ==> Plugins.NameOf(gs[i]) != n
    ensures RegisterAll(gens, gs).Get(n) == gens.Get(n)
    decreases |gs|
  {
    if |gs| > 0 {
      assert forall i :: 0 <= i < |gs[1..]| ==> gs[1..][i] == gs[i + 1];
      RegisterAllKeeps(Register(gens, gs[0]), gs[1..], n);
    }
  }

  // ---------------------------------------------------------------------------
  // The older registry: a singleton

  /** The class-level state: the one instance, once created. */
  datatype Singleton = Singleton(instance: Option<Generators>)

  /** `PluginRegistry()`: the first call creates the instance and registers
      the readme generator and then the default one; later calls return it. */
  function Instance(s: Singleton, readme: Plugins.Plugin, default: Plugins.Plugin): (r: (Singleton, Generators))
    requires s.instance.Some? ==> s.instance.value.Valid()
    ensures r.0.instance == Some(r.1) && r.1.Valid()
    ensures s.instance.Some? ==> r.0 == s && r.1 == s.instance.value
  {
    match s.instance
    case Some(g) => (s, g)
    case None =>
      var g := Register(Register(Empty(), readme), default);
      (Singleton(Some(g)), g)
  }

  /** Every call after the first returns the same registry. */
  lemma SameInstance(s: Singleton, readme: Plugins.Plugin, default: Plugins.Plugin)
    requires s.instance.Some? ==> s.instance.value.Valid()
    ensures var first := Instance(s, readme, default);
            Instance(first.0, readme, default) == first
  {
  }

  /** The built-ins of a fresh instance: readme first, then default. */
  lemma FreshInstance(readme: Plugins.Plugin, default: Plugins.Plugin)
    requires Plugins.NameOf(readme) != Plugins.NameOf(default)
    ensures var g := Instance(Singleton(None), readme, default).1;
            && g.keys == [Plugins.NameOf(readme), Plugins.NameOf(default)]
            && g.Values() == [readme, default]
  {
  }

  // ---------------------------------------------------------------------------
  // The newer registry: built-ins and proc files

  /** The built-in generators, in the order the newer registry registers them. */
  datatype BuiltIn = Readme | Default | Tree | Prompt | Model | LogSymlink | CacheControl | Image | TouchDetector

  const BuiltIns: seq<BuiltIn> := [Readme, Default, Tree, Prompt, Model, LogSymlink, CacheControl, Image, TouchDetector]

  /** `str(S_IFDIR | 0o755)`. */
  const DirectoryMode: string := "16877"

  /** The directory node the registry creates above a proc file: no content
      entry, no children yet, mode 0o755, no xattrs. */
  function NewDirectory(): (n: Nodes.Node)
    ensures n.Valid() && n.kind == Nodes.Directory && n.content == Nodes.Missing && n.xattrs.None?
    ensures n.children == Some(Empty()) && n.attrs.keys == ["st_mode"] && n.attrs.Get("st_mode") == Some(DirectoryMode)
  {
    var attrs := Dict(["st_mode"], map["st_mode" := DirectoryMode]);
    assert attrs.Valid();
    Nodes.Node(Nodes.Directory, Nodes.Missing, Some(Empty()), attrs, None)
  }

  /** A directory node as the registry creates it, possibly with entries linked since. */
  predicate IsCreatedDirectory(n: Nodes.Node)
  {
    && n.kind == Nodes.Directory && n.content == Nodes.Missing && n.xattrs.None? && n.children.Some?
    && n.attrs == NewDirectory().attrs
  }

  /** `_proc_to_node(proc)`: the proc file's type, content, attributes and
      xattrs, and no children entry. */
  function ProcToNode(f: Plugins.OverlayFile): (n: Nodes.Node)
    ensures n.kind == f.kind && n.content == Nodes.Text(f.content) && n.children.None?
    ensures n.attrs == f.attrs && n.xattrs == Some(f.xattrs)
  {
    Nodes.Node(f.kind, Nodes.Text(f.content), None, f.attrs, Some(f.xattrs))
  }

  /** What installing keeps of an existing node: everything but its children,
      which it only adds to. */
  predicate Kept(o: Nodes.Node, n: Nodes.Node)
  {
    && n.kind == o.kind && n.content == o.content && n.attrs == o.attrs && n.xattrs == o.xattrs
    && (o.children.Some? ==> n.children.Some?)
  }

  /** Links `part -> path` in the children of the directory `parent`;
      `KeyError` when there is no such node or it has no children map. */
  function LinkIn(s: Nodes.Store, parent: string, part: string, path: string): (r: Result<Nodes.Store, Nodes.Error>)
    requires Nodes.ValidStore(s)
    ensures r.Ok? <==> parent in s.entries && s.entries[parent].children.Some?
    ensures r.Ok? ==> parent in r.value.entries && r.value.entries[parent].children.Some?
    ensures r.Ok? ==> Nodes.ValidStore(r.value) && r.value.entries.Keys == s.entries.Keys
    ensures r.Ok? ==> forall k :: k in s.entries ==> Kept(s.entries[k], r.value.entries[k])
    ensures r.Ok? ==> forall k :: k in s.entries && k != parent ==> r.value.entries[k] == s.entries[k]
    ensures r.Ok? ==> r.value.entries[parent].children.value.Get(part) == Some(path)
  {
    match s.Get(parent)
    case None => Err(Nodes.KeyError)
    case Some(pn) =>
      match Nodes.LinkChild(pn, part, path)
      case Err(e) => Err(e)
      case Ok(n) =>
        Nodes.PutValid(s, parent, n);
        Ok(s.Put(parent, n))
  }

  /** One step of the ancestor loop: create the directory `path`, named
      `part`, and link it in its parent unless it is its own parent. */
  function AddDirectory(s: Nodes.Store, path: string, part: string): (r: Result<Nodes.Store, Nodes.Error>)
    requires Nodes.ValidStore(s) && path !in s.entries
    ensures r.Ok? ==> Nodes.ValidStore(r.value) && r.value.entries.Keys == s.entries.Keys + {path}
    ensures r.Ok? ==> forall k :: k in s.entries ==> Kept(s.entries[k], r.value.entries[k])
    ensures r.Ok? ==> IsCreatedDirectory(r.value.entries[path])
  {
    Nodes.PutValid(s, path, NewDirectory());
    var t := s.Put(path, NewDirectory());
    var parent := Paths.Dirname(path);
    if parent == path then Ok(t) else LinkIn(t, parent, part, path)
  }

  /** The directories the ancestor loop visits: `current` joined with each
      part in turn. */
  function Chain(current: string, parts: seq<string>): (r: seq<string>)
    ensures |r| == |parts|
    decreases |parts|
  {
    if |parts| == 0 then []
    else
      var next := Paths.Join(current, parts[0]);
      [next] + Chain(next, parts[1..])
  }

  /** The ancestor loop: every directory of the chain that is missing is
      created and linked in its parent. */
  function EnsureDirs(s: Nodes.Store, current: string, parts: seq<string>): (r: Result<Nodes.Store, Nodes.Error>)
    requires Nodes.ValidStore(s)
    ensures r.Ok? ==> Nodes.ValidStore(r.value)
    decreases |parts|
  {
    if |parts| == 0 then Ok(s)
    else
      var next := Paths.Join(current, parts[0]);
      var step := if next in s.entries then Ok(s) else AddDirectory(s, next, parts[0]);
      match step
      case Err(e) => Err(e)
      case Ok(t) => EnsureDirs(t, next, parts[1..])
  }

  /** What the ancestor loop leaves: existing nodes kept but for new entries,
      every directory of the chain present, and every new node a created
      directory of the chain. */
  lemma {:induction false} EnsureDirsEffects(s: Nodes.Store, current: string, parts: seq<string>)
    requires Nodes.ValidStore(s) && EnsureDirs(s, current, parts).Ok?
    ensures var r := EnsureDirs(s, current, parts).value;
            && (forall k :: k in s.entries ==> k in r.entries && Kept(s.entries[k], r.entries[k]))
            && (forall i :: 0 <= i < |parts| ==> Chain(current, parts)[i] in r.entries)
            && (forall k :: k in r.entries && k !in s.entries ==> k in Chain(current, parts) && IsCreatedDirectory(r.entries[k]))
    decreases |parts|
  {
    if |parts| > 0 {
      var next := Paths.Join(current, parts[0]);
      var step := if next in s.entries then Ok(s) else AddDirectory(s, next, parts[0]);
      var t := step.value;
      var r := EnsureDirs(s, current, parts).value;
      assert r == EnsureDirs(t, next, parts[1..]).value;
      EnsureDirsEffects(t, next, parts[1..]);
      var chain := Chain(current, parts);
      assert chain == [next] + Chain(next, parts[1..]);
      forall i | 0 <= i < |parts| ensures chain[i] in r.entries {
        if i > 0 { assert chain[i] == Chain(next, parts[1..])[i - 1]; }
      }
      forall k | k in r.entries && k !in s.entries
        ensures k in chain && IsCreatedDirectory(r.entries[k])
      {
        if k in t.entries {
          assert k == next;
        }
      }
    }
  }

  /** The ancestor loop for the directory of a proc file: nothing to do for
      "/", else every prefix of the directory below the root. */
  function Ancestors(s: Nodes.Store, dir: string): (r: Result<Nodes.Store, Nodes.Error>)
    requires Nodes.ValidStore(s)
    ensures r.Ok? ==> Nodes.ValidStore(r.value)
  {
    if dir != "/" then EnsureDirs(s, "/", Text.Split(dir, '/')[1..]) else Ok(s)
  }

  /** The ancestor loop keeps every node but for new entries and adds only
      created directories. */
  lemma AncestorsEffects(s: Nodes.Store, dir: string)
    requires Nodes.ValidStore(s) && Ancestors(s, dir).Ok?
    ensures var t := Ancestors(s, dir).value;
            && (forall k :: k in s.entries ==> k in t.entries && Kept(s.entries[k], t.entries[k]))
            && (forall k :: k in t.entries && k !in s.entries ==> IsCreatedDirectory(t.entries[k]))
  {
    if dir != "/" {
      EnsureDirsEffects(s, "/", Text.Split(dir, '/')[1..]);
    }
  }

  /** Storing the proc file's node and linking it in its directory. */
  function Place(t: Nodes.Store, f: Plugins.OverlayFile): (r: Result<Nodes.Store, Nodes.Error>)
    requires Nodes.ValidStore(t) && Plugins.ValidFile(f)
    ensures r.Ok? ==> Nodes.ValidStore(r.value)
  {
    Nodes.PutValid(t, f.path, ProcToNode(f));
    LinkIn(t.Put(f.path, ProcToNode(f)), Paths.Dirname(f.path), Paths.Basename(f.path), f.path)
  }

  /** The proc file's node is stored under its path and listed in its
      directory; every other node is kept but for new entries. */
  lemma PlaceEffects(t: Nodes.Store, f: Plugins.OverlayFile)
    requires Nodes.ValidStore(t) && Plugins.ValidFile(f) && Place(t, f).Ok?
    ensures var r := Place(t, f).value;
            && r.Get(f.path) == Some(ProcToNode(f))
            && Paths.Dirname(f.path) in r.entries && r.entries[Paths.Dirname(f.path)].children.Some?
            && r.entries[Paths.Dirname(f.path)].children.value.Get(Paths.Basename(f.path)) == Some(f.path)
            && (forall k :: k in t.entries && k != f.path ==> Kept(t.entries[k], r.entries[k]))
            && (forall k :: k in r.entries ==> k in t.entries || k == f.path)
  {
    var dir := Paths.Dirname(f.path);
    Nodes.PutValid(t, f.path, ProcToNode(f));
    var u := t.Put(f.path, ProcToNode(f));
    var r := LinkIn(u, dir, Paths.Basename(f.path), f.path);
    assert r == Place(t, f);
    assert u.Get(f.path) == Some(ProcToNode(f));
    if dir == f.path {
      assert false;
    }
    assert r.value.entries[f.path] == u.entries[f.path];
    forall k | k in t.entries && k != f.path ensures Kept(t.entries[k], r.value.entries[k]) {
      assert u.Get(k) == t.Get(k);
    }
  }

  /** Installing one proc file: its ancestors, then the node, then its entry
      in its directory. */
  function InstallFile(s: Nodes.Store, f: Plugins.OverlayFile): (r: Result<Nodes.Store, Nodes.Error>)
    requires Nodes.ValidStore(s) && Plugins.ValidFile(f)
    ensures r.Ok? ==> Nodes.ValidStore(r.value)
  {
    match Ancestors(s, Paths.Dirname(f.path))
    case Err(e) => Err(e)
    case Ok(t) => Place(t, f)
  }

  /** After installing a proc file, it exists, it is listed under its
      basename in its directory, every existing directory is kept but for
      new entries, and every other new node is a created directory. */
  lemma InstallFileEffects(s: Nodes.Store, f: Plugins.OverlayFile)
    requires Nodes.ValidStore(s) && Plugins.ValidFile(f) && InstallFile(s, f).Ok?
    ensures var r := InstallFile(s, f).value;
            && r.Get(f.path) == Some(ProcToNode(f))
            && Paths.Dirname(f.path) in r.entries && r.entries[Paths.Dirname(f.path)].children.Some?
            && r.entries[Paths.Dirname(f.path)].children.value.Get(Paths.Basename(f.path)) == Some(f.path)
            && (forall k :: k in s.entries && k != f.path ==> k in r.entries && Kept(s.entries[k], r.entries[k]))
            && (forall k :: k in r.entries && k !in s.entries && k != f.path ==> IsCreatedDirectory(r.entries[k]))
  {
    var dir := Paths.Dirname(f.path);
    var t := Ancestors(s, dir).value;
    var r := Place(t, f).value;
    assert InstallFile(s, f).value == r;
    AncestorsEffects(s, dir);
    PlaceEffects(t, f);
    forall k | k in r.entries && k !in s.entries && k != f.path ensures IsCreatedDirectory(r.entries[k]) {
      assert k in t.entries;
      assert Kept(t.entries[k], r.entries[k]);
    }
  }

  /** Installing a list of proc files in turn. */
  function InstallAll(s: Nodes.Store, fs: seq<Plugins.OverlayFile>): (r: Result<Nodes.Store, Nodes.Error>)
    requires Nodes.ValidStore(s) && forall i :: 0 <= i < |fs| ==> Plugins.ValidFile(fs[i])
    ensures r.Ok? ==> Nodes.ValidStore(r.value)
    decreases |fs|
  {
    if |fs| == 0 then Ok(s)
    else
      match InstallFile(s, fs[0])
      case Err(e) => Err(e)
      case Ok(t) => InstallAll(t, fs[1..])
  }

  /** A registry of the newer kind, with the filesystem it installs into. */
  datatype TouchRegistry = TouchRegistry(generators: Generators, root: Option<Nodes.Store>)

  ghost predicate ValidRegistry(r: TouchRegistry)
  {
    r.generators.Valid() && (r.root.Some? ==> Nodes.ValidStore(r.root.value))
  }

  /** `register_generator(g)` of the newer registry: file it under its name,
      then, with a filesystem, install its proc files. */
  function RegisterTouch(reg: TouchRegistry, g: Plugins.Plugin): (r: Result<TouchRegistry, Nodes.Error>)
    requires ValidRegistry(reg) && Plugins.ValidPlugin(g)
    ensures r.Ok? ==> ValidRegistry(r.value) && r.value.generators == Register(reg.generators, g)
    ensures r.Ok? ==> r.value.root.Some? == reg.root.Some?
    ensures reg.root.None? ==> r == Ok(reg.(generators := Register(reg.generators, g)))
  {
    var gens := Register(reg.generators, g);
    if reg.root.Some? && |Plugins.ProcFiles(g)| > 0 then
      match InstallAll(reg.root.value, Plugins.ProcFiles(g))
      case Err(e) => Err(e)
      case Ok(s) => Ok(TouchRegistry(gens, Some(s)))
    else Ok(reg.(generators := gens))
  }

  function RegisterTouchAll(reg: TouchRegistry, gs: seq<Plugins.Plugin>): (r: Result<TouchRegistry, Nodes.Error>)
    requires ValidRegistry(reg) && forall i :: 0 <= i < |gs| ==> Plugins.ValidPlugin(gs[i])
    ensures r.Ok? ==> ValidRegistry(r.value) && r.value.generators == RegisterAll(reg.generators, gs)
    ensures r.Ok? ==> r.value.root.Some? == reg.root.Some?
    ensures reg.root.None? ==> r == Ok(reg.(generators := RegisterAll(reg.generators, gs)))
    decreases |gs|
  {
    if |gs| == 0 then Ok(reg)
    else
      match RegisterTouch(reg, gs[0])
      case Err(e) => Err(e)
      case Ok(next) => RegisterTouchAll(next, gs[1..])
  }

  /** `_initialize_proc_files()`: every registered generator's proc files, in
      registration order. */
  function InstallPlugins(s: Nodes.Store, gs: seq<Plugins.Plugin>): (r: Result<Nodes.Store, Nodes.Error>)
    requires Nodes.ValidStore(s) && forall i :: 0 <= i < |gs| ==> Plugins.ValidPlugin(gs[i])
    ensures r.Ok? ==> Nodes.ValidStore(r.value)
    decreases |gs|
  {
    if |gs| == 0 then Ok(s)
    else
      assert Plugins.ValidPlugin(gs[0]);
      match InstallAll(s, Plugins.ProcFiles(gs[0]))
      case Err(e) => Err(e)
      case Ok(t) => InstallPlugins(t, gs[1..])
  }

  /** `PluginRegistry(root)`: the nine built-ins registered in order, then,
      with a filesystem, every proc file installed once more. */
  function Init(root: Option<Nodes.Store>, plugin: BuiltIn -> Plugins.Plugin): (r: Result<TouchRegistry, Nodes.Error>)
    requires root.Some? ==> Nodes.ValidStore(root.value)
    requires forall b :: Plugins.ValidPlugin(plugin(b))
    ensures r.Ok? ==> ValidRegistry(r.value) && r.value.root.Some? == root.Some?
    ensures r.Ok? ==> r.value.generators == RegisterAll(Empty(), Builtins(plugin))
    ensures root.None? ==> r.Ok?
  {
    var gs := Builtins(plugin);
    match RegisterTouchAll(TouchRegistry(Empty(), root), gs)
    case Err(e) => Err(e)
    case Ok(reg) =>
      if reg.root.Some? then
        var vs := reg.generators.Values();
        assert forall i :: 0 <= i < |vs| ==> Plugins.ValidPlugin(vs[i]) by {
          RegisterAllValues(Empty(), gs);
        }
        match InstallPlugins(reg.root.value, vs)
        case Err(e) => Err(e)
        case Ok(s) => Ok(reg.(root := Some(s)))
      else Ok(reg)
  }

  function Builtins(plugin: BuiltIn -> Plugins.Plugin): (r: seq<Plugins.Plugin>)
    ensures |r| == |BuiltIns| && forall i :: 0 <= i < |BuiltIns| ==> r[i] == plugin(BuiltIns[i])
  {
    seq(|BuiltIns|, i requires 0 <= i < |BuiltIns| => plugin(BuiltIns[i]))
  }

  /** Built-ins with distinct names are looked up in the fixed order readme,
      default, tree, prompt, model, log symlink, cache control, image, touch
      detector. */
  lemma InitOrder(root: Option<Nodes.Store>, plugin: BuiltIn -> Plugins.Plugin)
    requires root.Some? ==> Nodes.ValidStore(root.value)
    requires forall b :: Plugins.ValidPlugin(plugin(b))
    requires DistinctNames(Builtins(plugin))
    requires Init(root, plugin).Ok?
    ensures var gens := Init(root, plugin).value.generators;
            gens.keys == Names(Builtins(plugin)) && gens.Values() == Builtins(plugin)
  {
    var gs := Builtins(plugin);
    RegisterAllKeys(Empty(), gs);
    RegisterAllGet(Empty(), gs);
    var gens := Init(root, plugin).value.generators;
    assert gens.keys == Names(gs);
    forall i | 0 <= i < |gs| ensures gens.Values()[i] == gs[i] {
      assert gens.keys[i] == Plugins.NameOf(gs[i]);
    }
  }
}
