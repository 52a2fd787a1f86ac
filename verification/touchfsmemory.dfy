/**
 The file operations of the `touchfs` memory filesystem: `create`, `open`,
 `read`, `write`, `truncate` and `release` over the shared state, and its
 `_get_size`, whose reserved prefix is `/.touchfs/`. Content may be text or
 raw bytes. A generator is modelled by its answer for the path at hand: the
 content it returned or the exception it raised.
 */
module TouchfsMemory {
  import opened Wrappers
  import opened Dicts
  import opened Nodes
  import opened MemoryBase
  import StoreOps
  import JsonFs
  import LegacyFs
  import Trigger
  import Text
  import Utf8
  import Numerals
  import Bits
  import Paths

  const Prefix: string := "/.touchfs/"

  /** What a content generator answers for a path: text, bytes, or the
      exception it raised. */
  type Generation = Result<Body, Error>

  /** The byte size recorded for generated content: UTF-8 bytes of text, the
      length of raw bytes. */
  function ByteSize(b: Body): nat
  {
    match b
    case Text(t) => Utf8.Len(t)
    case Bytes(x) => |x|
    case _ => 0
  }

  // ---------------------------------------------------------------- _get_size

  /** The answer `_get_size` uses: a registry plugin's, when the node has a
      `generator` key and the registry found a plugin for the path (`plugin`
      is `None` when it found none); the fallback generator's otherwise. */
  function Chosen(n: Node, plugin: Option<Generation>, fallback: Generation): Generation
  {
    if XattrOf(n, Trigger.GeneratorKey).Some? && plugin.Some? then plugin.value else fallback
  }

  /** `_get_size(node)` for the node under `k`, with raw bytes measured as they are. */
  function GetSize(fs: Fs, k: string, plugin: Option<Generation>, fallback: Generation): (r: Outcome<nat>)
    requires ValidStore(fs.store) && k in fs.store.entries
    ensures ValidStore(r.fs.store) && r.fs.store.keys == fs.store.keys
    ensures r.fs.fd == fs.fd && r.fs.files == fs.files
    ensures forall j :: j in fs.store.entries && fs.store.entries[j] != fs.store.entries[k] ==> r.fs.store.Get(j) == fs.store.Get(j)
  {
    var a := Chosen(fs.store.entries[k], plugin, fallback);
    var st := Trigger.GetSize(fs.store, k, Prefix, true, (p: string) => a);
    Outcome(fs.(store := st.store), st.result)
  }

  /** Without a `generator` key the registry is not consulted: whatever a
      plugin would answer, the outcome is the fallback generator's. */
  lemma PluginNeedsGeneratorKey(fs: Fs, k: string, plugin: Option<Generation>, fallback: Generation)
    requires ValidStore(fs.store) && k in fs.store.entries
    requires XattrOf(fs.store.entries[k], Trigger.GeneratorKey).None?
    ensures GetSize(fs, k, plugin, fallback) == GetSize(fs, k, None, fallback)
  {
    assert Chosen(fs.store.entries[k], plugin, fallback) == fallback;
  }

  /** A due generation that yields content stores it under the node's path and
      reports its byte size. */
  lemma GetSizeGenerated(fs: Fs, k: string, plugin: Option<Generation>, fallback: Generation, b: Body)
    requires ValidStore(fs.store) && k in fs.store.entries && Trigger.Marked(fs.store.entries[k])
    requires Trigger.DueAt(fs.store, k, Prefix)
    requires Chosen(fs.store.entries[k], plugin, fallback) == Ok(b) && Truthy(b)
    ensures var p := Trigger.PathOf(fs.store, k);
            var r := GetSize(fs, k, plugin, fallback);
            && r.result == Ok(ByteSize(b))
            && r.fs.store.Get(p).Some? && r.fs.store.Get(p).value.content == b
  {
    ConstantGenerationStores(fs.store, k, Chosen(fs.store.entries[k], plugin, fallback), b);
  }

  /** `GetSizeGenerated` for the store alone. */
  lemma ConstantGenerationStores(s: Store, k: string, a: Generation, b: Body)
    requires ValidStore(s) && k in s.entries && Trigger.Marked(s.entries[k])
    requires Trigger.DueAt(s, k, Prefix) && a == Ok(b) && Truthy(b)
    ensures var st := Trigger.GetSize(s, k, Prefix, true, (p: string) => a);
            var p := Trigger.PathOf(s, k);
            && st.result == Ok(ByteSize(b))
            && st.store.Get(p).Some? && st.store.Get(p).value.content == b
  {
    var produce := (p: string) => a;
    var p := Trigger.PathOf(s, k);
    var n2 := Trigger.Filled(s.entries[k], b, p, Prefix);
    assert produce(p) == Ok(b);
    Trigger.GenerationStores(s, k, Prefix, true, produce);
    assert n2.kind == File;
  }

  /** After a generation that yields content, the `generate_content` marker is
      kept exactly when the node's path is under `/.touchfs/`, so the files
      there are generated afresh on every size query. */
  lemma GetSizeMarker(fs: Fs, k: string, plugin: Option<Generation>, fallback: Generation)
    requires ValidStore(fs.store) && k in fs.store.entries && Trigger.Marked(fs.store.entries[k])
    requires Trigger.DueAt(fs.store, k, Prefix)
    requires Chosen(fs.store.entries[k], plugin, fallback).Ok? && Truthy(Chosen(fs.store.entries[k], plugin, fallback).value)
    ensures var p := Trigger.PathOf(fs.store, k);
            var r := GetSize(fs, k, plugin, fallback);
            && r.fs.store.Get(p).Some?
            && (Text.StartsWith(p, Prefix) <==>
                 XattrOf(r.fs.store.Get(p).value, Trigger.GenerateContent) == XattrOf(fs.store.entries[k], Trigger.GenerateContent))
  {
    var a := Chosen(fs.store.entries[k], plugin, fallback);
    var produce := (p: string) => a;
    var st := Trigger.GetSize(fs.store, k, Prefix, true, produce);
    assert GetSize(fs, k, plugin, fallback) == Outcome(fs.(store := st.store), st.result);
    Trigger.GenerationStores(fs.store, k, Prefix, true, produce);
  }

  /** A generation that raises leaves the store as it was, marker included, and
      reports the size of the existing content. */
  lemma GetSizeFailureRetries(fs: Fs, k: string, plugin: Option<Generation>, fallback: Generation)
    requires ValidStore(fs.store) && k in fs.store.entries && Trigger.Marked(fs.store.entries[k])
    requires Trigger.DueAt(fs.store, k, Prefix)
    requires Chosen(fs.store.entries[k], plugin, fallback).Err?
    ensures GetSize(fs, k, plugin, fallback) == Outcome(fs, Trigger.ExistingSize(fs.store.entries[k].content))
  {
    var a := Chosen(fs.store.entries[k], plugin, fallback);
    var produce := (p: string) => a;
    Trigger.FailureKeepsNode(fs.store, k, Prefix, true, produce);
  }

  /** A file outside `/.touchfs/` with content and a non-zero recorded size is
      never regenerated: the size query reports its size and changes nothing. */
  lemma GetSizeSettled(fs: Fs, k: string, plugin: Option<Generation>, fallback: Generation)
    requires ValidStore(fs.store) && k in fs.store.entries && fs.store.entries[k].kind == File
    requires Truthy(fs.store.entries[k].content)
    requires Trigger.RecordedSize(fs.store.entries[k]).Some? && Trigger.RecordedSize(fs.store.entries[k]).value != 0
    requires forall j :: j in fs.store.entries && fs.store.entries[j] == fs.store.entries[k] ==> !Text.StartsWith(j, Prefix)
    ensures GetSize(fs, k, plugin, fallback) == Outcome(fs, Trigger.SizeOf(fs.store.entries[k], true))
  {
    var a := Chosen(fs.store.entries[k], plugin, fallback);
    var produce := (p: string) => a;
    Trigger.SettledNotRegenerated(fs.store, k, Prefix, true, produce);
  }

  // ------------------------------------------------------------------- create

  lemma ModeSizeDistinct()
    ensures "st_mode" != "st_size"
  {
    assert "st_mode"[3] != "st_size"[3];
  }

  /** The node `create` stores: an empty file recorded as size 0 with mode
      `S_IFREG | mode`, carrying the `generate_content` marker exactly when a
      touch created it. */
  function TouchedFile(mode: int, touched: bool): (n: Node)
    ensures n.Valid() && n.kind == File && n.content == Text("") && n.children.None?
    ensures AttrOf(n, "st_mode") == Some(Numerals.IntToString(Bits.BitOr(Bits.S_IFREG, mode)))
    ensures AttrOf(n, "st_size") == Some("0")
    ensures XattrTruthy(n, Trigger.GenerateContent) <==> touched
    ensures !touched ==> n.xattrs.None?
  {
    ModeSizeDistinct();
    var attrs := Empty<string, string>().Put("st_mode", Numerals.IntToString(Bits.BitOr(Bits.S_IFREG, mode))).Put("st_size", "0");
    Node(File, Text(""), None, attrs, if touched then Some(Empty<string, string>().Put(Trigger.GenerateContent, "true")) else None)
  }

  /** Where a `touch` puts the file: `touchDir` is the directory, relative
      to the mount point, of the first `touch` process found working below
      it, or `None` when the create is no touch or no such process exists.
      Such a directory other than the root must be a stored directory
      (ENOENT otherwise); the file then goes into it under the path's
      basename. Without one the path stays as given. */
  function TouchPath(fs: Fs, path: string, touchDir: Option<string>): (r: Result<string, Error>)
    ensures touchDir.None? ==> r == Ok(path)
    ensures touchDir.Some? && r.Ok? ==> r.value == Paths.NormPath(Paths.Join(touchDir.value, Paths.Basename(path)))
    ensures touchDir.Some? && touchDir.value != "/" ==>
              (r.Err? <==> JsonFs.Find(fs.store, touchDir.value) == Ok(None)
                           || (JsonFs.Find(fs.store, touchDir.value).Ok? && JsonFs.Find(fs.store, touchDir.value).value.Some?
                               && JsonFs.Find(fs.store, touchDir.value).value.value.kind != Directory))
    ensures r.Err? ==> r.error == NoEntry
  {
    match touchDir
    case None => Ok(path)
    case Some(d) =>
      var found := if d == "/" then Ok(None) else JsonFs.Find(fs.store, d);
      if d != "/" && (found == Ok(None) || (found.Ok? && found.value.Some? && found.value.value.kind != Directory)) then
        Err(NoEntry)
      else Ok(Paths.NormPath(Paths.Join(d, Paths.Basename(path))))
  }

  /** `create(path, mode)`: the touch directory, if any, moves the path
      first (or refuses the file); the rest is `CreateAt` on the result. A
      refusal changes nothing. `touched` stands for whether a `touch` process
      is creating the file at the path finally used. */
  function Create(fs: Fs, path: string, mode: int, touchDir: Option<string>, touched: bool): (r: Outcome<nat>)
    requires ValidStore(fs.store)
    ensures ValidStore(r.fs.store)
    ensures TouchPath(fs, path, touchDir).Err? ==> r == Outcome(fs, Err(NoEntry))
    ensures TouchPath(fs, path, touchDir).Ok? ==> r == CreateAt(fs, TouchPath(fs, path, touchDir).value, mode, touched)
  {
    match TouchPath(fs, path, touchDir)
    case Err(e) => Outcome(fs, Err(e))
    case Ok(p) => CreateAt(fs, p, mode, touched)
  }

  /** A touch working in a stored directory puts the file there under the
      basename of the path it was given. */
  lemma TouchIntoDirectory(fs: Fs, path: string, dir: string, mode: int, touched: bool)
    requires ValidStore(fs.store) && Paths.Canonical(dir) && Paths.ValidName(Paths.Basename(path))
    requires dir != "/" ==> dir in fs.store.entries && fs.store.entries[dir].kind == Directory
    ensures Create(fs, path, mode, Some(dir), touched) == CreateAt(fs, Paths.Child(dir, Paths.Basename(path)), mode, touched)
  {
    var c := Paths.Child(dir, Paths.Basename(path));
    JsonFs.FindCanonical(fs.store, dir);
    Paths.ChildCanonical(dir, Paths.Basename(path));
    Paths.NormPathCanonical(c);
  }

  /** A touch working in a directory that is not stored is refused. */
  lemma TouchIntoMissingDirectory(fs: Fs, path: string, dir: string, mode: int, touched: bool)
    requires ValidStore(fs.store) && Paths.Canonical(dir) && dir != "/" && dir !in fs.store.entries
    ensures Create(fs, path, mode, Some(dir), touched) == Outcome(fs, Err(NoEntry))
  {
    JsonFs.FindCanonical(fs.store, dir);
  }

  /** `create(path, mode)` once the path is settled, with `touched` standing
      for whether a `touch` process is creating the file. The parent must be an existing directory
      (ENOENT otherwise); the file is stored under the path as given and linked
      in the parent, and a new descriptor is recorded for it. */
  function CreateAt(fs: Fs, path: string, mode: int, touched: bool): (r: Outcome<nat>)
    requires ValidStore(fs.store)
    ensures ValidStore(r.fs.store)
    ensures var a := StoreOps.AddNode(fs.store, path, TouchedFile(mode, touched), true);
            && r.fs.store == a.store
            && (a.result.Ok? ==> r.result == Ok(fs.fd + 1) && r.fs.fd == fs.fd + 1 && r.fs.files == fs.files[fs.fd + 1 := path])
            && (a.result.Err? ==> r.result == Err(a.result.error) && r.fs.fd == fs.fd && r.fs.files == fs.files)
  {
    var a := StoreOps.AddNode(fs.store, path, TouchedFile(mode, touched), true);
    match a.result
    case Err(e) => Outcome(fs.(store := a.store), Err(e))
    case Ok(_) => Record(Fs(a.store, fs.fd, fs.files), path)
  }

  /** Under an existing directory the new file is stored under the child path,
      listed in the parent, and opened under a fresh descriptor. */
  lemma CreateUnderDirectory(fs: Fs, parent: string, name: string, mode: int, touched: bool)
    requires ValidStore(fs.store) && Paths.Canonical(parent) && Paths.ValidName(name)
    requires parent in fs.store.entries && fs.store.entries[parent].kind == Directory
    requires fs.store.entries[parent].children.Some?
    ensures var c := Paths.Child(parent, name);
            var r := CreateAt(fs, c, mode, touched);
            && r.result == Ok(fs.fd + 1)
            && r.fs.store.Get(c) == Some(TouchedFile(mode, touched))
            && r.fs.store.Get(parent).Some? && r.fs.store.Get(parent).value.children.Some?
            && r.fs.store.Get(parent).value.children.value.Get(name) == Some(c)
            && r.fs.files == fs.files[fs.fd + 1 := c]
  {
    var c := Paths.Child(parent, name);
    var n := TouchedFile(mode, touched);
    StoreOps.AddNodeUnderParent(fs.store, parent, name, n, true);
    CreateAdded(fs, c, mode, touched);
  }

  /** Once the node is added, `create` is the recording of a descriptor. */
  lemma CreateAdded(fs: Fs, path: string, mode: int, touched: bool)
    requires ValidStore(fs.store)
    requires StoreOps.AddNode(fs.store, path, TouchedFile(mode, touched), true).result == Ok(())
    ensures var r := CreateAt(fs, path, mode, touched);
            && r.result == Ok(fs.fd + 1) && r.fs.files == fs.files[fs.fd + 1 := path]
            && r.fs.store == StoreOps.AddNode(fs.store, path, TouchedFile(mode, touched), true).store
  {
  }

  /** A parent that exists but is not a directory refuses the file: ENOENT,
      and nothing changes. */
  lemma CreateNeedsDirectory(fs: Fs, parent: string, name: string, mode: int, touched: bool)
    requires ValidStore(fs.store) && Paths.Canonical(parent) && Paths.ValidName(name)
    requires parent in fs.store.entries && fs.store.entries[parent].kind != Directory
    ensures CreateAt(fs, Paths.Child(parent, name), mode, touched) == Outcome(fs, Err(NoEntry))
  {
    var c := Paths.Child(parent, name);
    StoreOps.SplitChild(parent, name);
    JsonFs.FindCanonical(fs.store, parent);
    assert StoreOps.AddNode(fs.store, c, TouchedFile(mode, touched), true) == StoreOps.Step(fs.store, Err(NoEntry));
  }

  // --------------------------------------------------------------------- open

  /** The test `open` and `read` make before generating: the node carries the
      `generate_content` marker and its content is empty or its recorded size
      is 0. The size is parsed only when the content is not empty, and a size
      that does not parse raises `ValueError`. */
  function NeedsGeneration(n: Node): (r: Result<bool, Error>)
    ensures r == Ok(true) ==> XattrTruthy(n, Trigger.GenerateContent)
    ensures r.Err? <==> XattrTruthy(n, Trigger.GenerateContent) && Truthy(n.content) && Trigger.RecordedSize(n).None?
  {
    if !XattrTruthy(n, Trigger.GenerateContent) then Ok(false)
    else if !Truthy(n.content) then Ok(true)
    else match Trigger.RecordedSize(n)
      case None => Err(ValueError)
      case Some(v) => Ok(v == 0)
  }

  /** Off the reserved prefix, the test `open` makes is exactly the trigger
      condition of `_get_size`, for a node whose recorded size parses. */
  lemma NeedsGenerationIsDue(n: Node, p: string)
    requires Trigger.RecordedSize(n).Some? && !Text.StartsWith(p, Prefix)
    ensures NeedsGeneration(n) == Ok(Trigger.Due(p, n, Trigger.RecordedSize(n).value, Prefix))
  {
  }

  /** A file `create` makes needs generation exactly when a touch made it. */
  lemma CreatedNeedsGeneration(mode: int, touched: bool)
    ensures NeedsGeneration(TouchedFile(mode, touched)) == Ok(touched)
  {
  }

  /** The file after a successful generation of `b`: the content, its byte
      size recorded, and the `generate_content` marker dropped (an emptied
      xattrs map with it). */
  function Generated(n: Node, b: Body): (r: Node)
    requires n.Valid()
    ensures r.Valid() && r.kind == n.kind && r.children == n.children && r.content == b
    ensures AttrOf(r, "st_size") == Some(Numerals.IntToString(ByteSize(b)))
    ensures forall a :: a != "st_size" ==> AttrOf(r, a) == AttrOf(n, a)
    ensures XattrOf(r, Trigger.GenerateContent).None?
    ensures forall x :: x != Trigger.GenerateContent ==> XattrOf(r, x) == XattrOf(n, x)
  {
    Trigger.Unmarked(WithAttr(n.(content := b), "st_size", Numerals.IntToString(ByteSize(b))))
  }

  /** The file after a failed generation: empty text recorded as size 0, the
      marker kept. */
  function Blanked(n: Node): (r: Node)
    requires n.Valid()
    ensures r.Valid() && r.kind == n.kind && r.children == n.children && r.xattrs == n.xattrs
    ensures r.content == Text("") && AttrOf(r, "st_size") == Some("0")
    ensures forall a :: a != "st_size" ==> AttrOf(r, a) == AttrOf(n, a)
  {
    WithAttr(n.(content := Text("")), "st_size", "0")
  }

  /** The file `open` leaves: unchanged unless it needs generation; then the
      generated content when the generator returns some, and blank otherwise.
      A size that does not parse is caught and blanks the file as well. */
  function Opened(n: Node, g: Generation): (r: Node)
    requires n.Valid()
    ensures r.Valid() && r.kind == n.kind && r.children == n.children
  {
    match NeedsGeneration(n)
    case Ok(false) => n
    case Ok(true) => if g.Ok? && Truthy(g.value) then Generated(n, g.value) else Blanked(n)
    case Err(_) => Blanked(n)
  }

  /** After a successful generation the file no longer needs one; after a
      failed one a marked file still does, so a later `open` tries again. */
  lemma OpenedSettles(n: Node, g: Generation)
    requires n.Valid() && NeedsGeneration(n) == Ok(true)
    ensures g.Ok? && Truthy(g.value) ==> NeedsGeneration(Opened(n, g)) == Ok(false)
    ensures !(g.Ok? && Truthy(g.value)) ==> NeedsGeneration(Opened(n, g)) == Ok(true)
  {
  }

  /** `open(path, flags)`: the file found under `path` becomes `Opened` and a
      new descriptor is recorded for the path; a missing node or one that is
      not a file raises ENOENT. */
  function Open(fs: Fs, path: string, g: Generation): (r: Outcome<nat>)
    requires ValidStore(fs.store)
    ensures ValidStore(r.fs.store) && r.fs.store.keys == fs.store.keys
    ensures r.result.Ok? ==> JsonFs.FindKey(path) in r.fs.store.entries
    ensures r == OpenAt(fs, path, JsonFs.Find(fs.store, path), JsonFs.FindKey(path), g)
  {
    OpenAt(fs, path, JsonFs.Find(fs.store, path), JsonFs.FindKey(path), g)
  }

  /** `open` once the path has been looked up: `found` is what `find` returned
      and `k` the key it read. */
  function OpenAt(fs: Fs, path: string, found: Result<Option<Node>, Error>, k: string, g: Generation): (r: Outcome<nat>)
    requires ValidStore(fs.store)
    requires found.Ok? && found.value.Some? ==> k in fs.store.entries && fs.store.entries[k] == found.value.value
    ensures ValidStore(r.fs.store) && r.fs.store.keys == fs.store.keys
    ensures r.result.Err? ==> r.fs == fs
    ensures found.Ok? ==> (r.result.Ok? <==> found.value.Some? && found.value.value.kind == File)
    ensures found.Ok? && !(found.value.Some? && found.value.value.kind == File) ==> r.result == Err(NoEntry)
    ensures r.result.Ok? ==> k in fs.store.entries && r == OpenFile(fs, path, k, g)
  {
    match found
    case Err(e) => Outcome(fs, Err(e))
    case Ok(None) => Outcome(fs, Err(NoEntry))
    case Ok(Some(n)) =>
      if n.kind != File then Outcome(fs, Err(NoEntry))
      else OpenFile(fs, path, k, g)
  }

  /** `open` of the file under `k`: the node becomes `Opened`, nothing else in
      the store changes, and the path is recorded under the next descriptor. */
  function OpenFile(fs: Fs, path: string, k: string, g: Generation): (r: Outcome<nat>)
    requires ValidStore(fs.store) && k in fs.store.entries
    ensures ValidStore(r.fs.store) && r.fs.store.keys == fs.store.keys
    ensures r.result == Ok(fs.fd + 1) && r.fs.fd == fs.fd + 1 && r.fs.files == fs.files[fs.fd + 1 := path]
    ensures r.fs.store.Get(k) == Some(Opened(fs.store.entries[k], g))
    ensures forall j :: j != k ==> r.fs.store.Get(j) == fs.store.Get(j)
  {
    var n2 := Opened(fs.store.entries[k], g);
    PutValid(fs.store, k, n2);
    Record(Fs(fs.store.Put(k, n2), fs.fd, fs.files), path)
  }

  /** `open` of a normalised path reads the node stored there. */
  lemma OpenCanonical(fs: Fs, p: string, g: Generation)
    requires ValidStore(fs.store) && Paths.Canonical(p) && p != "/" && p in fs.store.entries
    ensures Open(fs, p, g) == OpenAt(fs, p, Ok(Some(fs.store.entries[p])), p, g)
  {
    JsonFs.FindCanonical(fs.store, p);
  }

  /** A file that does not need generation is opened as it is: the generator
      is not consulted and only the descriptor table changes. */
  lemma OpenKeepsContent(fs: Fs, p: string, g: Generation, other: Generation)
    requires ValidStore(fs.store) && Paths.Canonical(p) && p != "/"
    requires p in fs.store.entries && fs.store.entries[p].kind == File
    requires NeedsGeneration(fs.store.entries[p]) == Ok(false)
    ensures Open(fs, p, g) == Open(fs, p, other)
    ensures Open(fs, p, g).fs.store == fs.store
  {
    OpenCanonical(fs, p, g);
    OpenCanonical(fs, p, other);
    var n := fs.store.entries[p];
    assert fs.store.Put(p, n) == fs.store;
  }

  /** Opening a file that needs generation, when the generator returns content,
      stores it with its byte size and drops the marker. */
  lemma OpenGenerates(fs: Fs, p: string, g: Generation, b: Body)
    requires ValidStore(fs.store) && Paths.Canonical(p) && p != "/"
    requires p in fs.store.entries && fs.store.entries[p].kind == File
    requires NeedsGeneration(fs.store.entries[p]) == Ok(true)
    requires g == Ok(b) && Truthy(b)
    ensures var n := Open(fs, p, g).fs.store.Get(p);
            && n.Some? && n.value.content == b
            && XattrOf(n.value, Trigger.GenerateContent).None?
            && AttrOf(n.value, "st_size").Some?
            && Numerals.ParseInt(AttrOf(n.value, "st_size").value) == Some(ByteSize(b) as int)
  {
    OpenCanonical(fs, p, g);
    Numerals.ParsePrinted(ByteSize(b));
  }

  /** A generation that raises or returns nothing leaves the file empty,
      recorded as size 0, with its marker, so the next `open` tries again. */
  lemma OpenFailureBlanks(fs: Fs, p: string, g: Generation)
    requires ValidStore(fs.store) && Paths.Canonical(p) && p != "/"
    requires p in fs.store.entries && fs.store.entries[p].kind == File
    requires NeedsGeneration(fs.store.entries[p]) == Ok(true)
    requires !(g.Ok? && Truthy(g.value))
    ensures var n := Open(fs, p, g).fs.store.Get(p);
            && n == Some(Blanked(fs.store.entries[p]))
            && NeedsGeneration(n.value) == Ok(true)
  {
    OpenCanonical(fs, p, g);
    OpenedSettles(fs.store.entries[p], g);
  }

  /** A successful `open` hands out a descriptor no record held, and releasing
      it restores the open-file table. */
  lemma OpenThenRelease(fs: Fs, p: string, g: Generation)
    requires ValidStore(fs.store) && Handed(fs)
    requires Open(fs, p, g).result.Ok?
    ensures var o := Open(fs, p, g);
            && Handed(o.fs) && o.result.value !in fs.files
            && Release(o.fs, o.result.value).fs.files == fs.files
  {
    var o := Open(fs, p, g);
    assert o.fs == Record(Fs(o.fs.store, fs.fd, fs.files), p).fs;
    RecordThenRelease(Fs(o.fs.store, fs.fd, fs.files), p);
  }

  // --------------------------------------------------------------------- read

  /** `open(path, 0)` followed by a look at the node now stored under `path`. */
  function Reopen(fs: Fs, path: string, g: Generation): (r: Outcome<Node>)
    requires ValidStore(fs.store)
    ensures ValidStore(r.fs.store)
    ensures r.fs.fd == fs.fd || r.fs.fd == fs.fd + 1
    ensures r.result.Err? ==> r.fs == fs && Open(fs, path, g).result.Err?
    ensures r.result.Ok? ==> Open(fs, path, g).result.Ok? && r.fs == Open(fs, path, g).fs
                             && r.result.value == r.fs.store.entries[JsonFs.FindKey(path)]
  {
    var o := Open(fs, path, g);
    match o.result
    case Err(e) => Outcome(fs, Err(e))
    case Ok(_) => Outcome(o.fs, Ok(o.fs.store.entries[JsonFs.FindKey(path)]))
  }

  /** The bytes `read` returns from a file's content: the UTF-8 encoding of
      text, raw bytes as they are, sliced to at most `size` bytes from
      `offset`; content that is absent raises `RuntimeError`. */
  function ReadBytes(b: Body, size: nat, offset: nat, path: string): (r: Result<seq<Utf8.byte>, Error>)
    ensures r.Err? <==> b.Missing? || b.Null?
    ensures r.Err? ==> r.error == RuntimeError("Content generation failed for " + path)
    ensures r.Ok? ==> |r.value| <= size
  {
    match b
    case Text(t) => Ok(Text.Slice(Utf8.Encode(t), offset, offset + size))
    case Bytes(x) => Ok(Text.Slice(x, offset, offset + size))
    case _ => Err(RuntimeError("Content generation failed for " + path))
  }

  /** Reading raw bytes returns `bytes[offset:offset + size]`: nothing from the
      end on, otherwise the bytes from the offset up to the smaller of the two
      ends. */
  lemma ReadBytesRange(x: seq<Utf8.byte>, size: nat, offset: nat, path: string)
    ensures offset >= |x| ==> ReadBytes(Bytes(x), size, offset, path) == Ok([])
    ensures offset < |x| ==>
              ReadBytes(Bytes(x), size, offset, path) == Ok(x[offset..if offset + size < |x| then offset + size else |x|])
  {
    if size == 0 && offset < |x| {
      assert x[offset..offset] == [];
    }
  }

  /** `read(path, size, offset, fh)`. The node is the one the descriptor
      leads to, or the one a fresh `open` leaves (answer `g1`); if it still
      needs generation, `open` runs once more (answer `g2`). A size that does
      not parse raises from the second test. */
  function Read(fs: Fs, path: string, size: nat, offset: nat, fh: nat, g1: Generation, g2: Generation): (r: Outcome<seq<Utf8.byte>>)
    requires ValidStore(fs.store)
    ensures ValidStore(r.fs.store)
    ensures fs.fd <= r.fs.fd <= fs.fd + 2
    ensures r.result.Ok? ==> |r.result.value| <= size
    ensures fh in fs.files && Held(fs, fh).Ok? && NeedsGeneration(Held(fs, fh).value) == Ok(false) ==>
              r == Outcome(fs, ReadBytes(Held(fs, fh).value.content, size, offset, path))
    ensures fh in fs.files && Held(fs, fh).Err? ==> r == Outcome(fs, Err(Held(fs, fh).error))
    ensures fh !in fs.files && Open(fs, path, g1).result.Err? ==> r == Outcome(fs, Err(Open(fs, path, g1).result.error))
  {
    var first := if fh in fs.files then Outcome(fs, Held(fs, fh)) else Reopen(fs, path, g1);
    match first.result
    case Err(e) => Outcome(first.fs, Err(e))
    case Ok(n) =>
      match NeedsGeneration(n)
      case Err(e) => Outcome(first.fs, Err(e))
      case Ok(again) =>
        var second := if again then Reopen(first.fs, path, g2) else Outcome(first.fs, Ok(n));
        match second.result
        case Err(e) => Outcome(second.fs, Err(e))
        case Ok(m) => Outcome(second.fs, ReadBytes(m.content, size, offset, path))
  }

  /** `open` of a normalised path to a file, followed by a look at it: the
      file as `Opened` leaves it, under a new descriptor. */
  lemma ReopenCanonical(fs: Fs, p: string, g: Generation)
    requires ValidStore(fs.store) && Paths.Canonical(p) && p != "/"
    requires p in fs.store.entries && fs.store.entries[p].kind == File
    ensures var r := Reopen(fs, p, g);
            && r.result == Ok(Opened(fs.store.entries[p], g))
            && r.fs.fd == fs.fd + 1 && r.fs.store.Get(p) == Some(Opened(fs.store.entries[p], g))
            && ValidStore(r.fs.store) && p in r.fs.store.entries
  {
    OpenCanonical(fs, p, g);
    JsonFs.FindCanonical(fs.store, p);
  }

  /** A read without a descriptor of a file that does not need generation
      opens it once and returns its bytes; the store is unchanged. */
  lemma ReadSettled(fs: Fs, p: string, size: nat, offset: nat, fh: nat, g1: Generation, g2: Generation)
    requires ValidStore(fs.store) && Paths.Canonical(p) && p != "/" && fh !in fs.files
    requires p in fs.store.entries && fs.store.entries[p].kind == File
    requires NeedsGeneration(fs.store.entries[p]) == Ok(false)
    ensures var r := Read(fs, p, size, offset, fh, g1, g2);
            && r.result == ReadBytes(fs.store.entries[p].content, size, offset, p)
            && r.fs.store == fs.store && r.fs.fd == fs.fd + 1
  {
    ReopenCanonical(fs, p, g1);
    OpenKeepsContent(fs, p, g1, g1);
  }

  /** A read without a descriptor of a file that needs generation: when the
      first generation fails and the second yields content, the read returns
      that content and the file keeps it. */
  lemma ReadRetriesAfterFailure(fs: Fs, p: string, size: nat, offset: nat, fh: nat, g1: Generation, g2: Generation, b: Body)
    requires ValidStore(fs.store) && Paths.Canonical(p) && p != "/" && fh !in fs.files
    requires p in fs.store.entries && fs.store.entries[p].kind == File
    requires NeedsGeneration(fs.store.entries[p]) == Ok(true)
    requires !(g1.Ok? && Truthy(g1.value)) && g2 == Ok(b) && Truthy(b)
    ensures var r := Read(fs, p, size, offset, fh, g1, g2);
            && r.result == ReadBytes(b, size, offset, p)
            && r.fs.fd == fs.fd + 2
            && r.fs.store.Get(p).Some? && r.fs.store.Get(p).value.content == b
  {
    var n := fs.store.entries[p];
    var m := Opened(n, g1);
    var first := Reopen(fs, p, g1);
    assert first.result == Ok(m) && first.fs.fd == fs.fd + 1 && ValidStore(first.fs.store)
           && p in first.fs.store.entries && first.fs.store.entries[p] == m by {
      ReopenCanonical(fs, p, g1);
    }
    assert NeedsGeneration(m) == Ok(true) by {
      OpenedSettles(n, g1);
    }
    var m2 := Generated(m, b);
    var second := Reopen(first.fs, p, g2);
    assert second.result == Ok(m2) && second.fs.fd == fs.fd + 2 && second.fs.store.Get(p) == Some(m2) by {
      ReopenCanonical(first.fs, p, g2);
      assert Opened(m, g2) == m2;
    }
    assert Read(fs, p, size, offset, fh, g1, g2) == Outcome(second.fs, ReadBytes(b, size, offset, p));
  }

  // -------------------------------------------------------------------- write

  function Zeros(n: nat): (r: seq<Utf8.byte>)
    ensures |r| == n && forall i :: 0 <= i < n ==> r[i] == 0
  {
    seq(n, _ => 0)
  }

  /** `content[:offset] + data` after NUL-padding raw bytes up to `offset`. */
  function BytesSpliced(prev: seq<Utf8.byte>, offset: nat, data: seq<Utf8.byte>): (r: seq<Utf8.byte>)
    ensures |r| == offset + |data|
    ensures offset <= |prev| ==> r[..offset] == prev[..offset]
    ensures offset > |prev| ==> r[..|prev|] == prev && forall i :: |prev| <= i < offset ==> r[i] == 0
    ensures r[offset..] == data
  {
    var padded := if offset > |prev| then prev + Zeros(offset - |prev|) else prev;
    Text.Take(padded, offset) + data
  }

  /** The file after `write` of `data` at `offset`: the `Written` node, which
      is then emptied and recorded as size 0 if still marked for generation. */
  function WriteNode(n: Node, data: seq<Utf8.byte>, offset: nat): (r: Result<Node, Error>)
    requires n.Valid()
    ensures r.Ok? <==> Written(n, data, offset).Ok?
    ensures r.Err? ==> r == Written(n, data, offset)
    ensures r.Ok? ==> r.value.Valid() && r.value.kind == n.kind && r.value.children == n.children && r.value.xattrs == n.xattrs
    ensures r.Ok? ==> forall a :: a != "st_size" ==> AttrOf(r.value, a) == AttrOf(n, a)
    ensures r.Ok? && XattrTruthy(n, Trigger.GenerateContent) ==> r.value.content == Text("") && AttrOf(r.value, "st_size") == Some("0")
    ensures r.Ok? && !XattrTruthy(n, Trigger.GenerateContent) ==> r == Written(n, data, offset)
  {
    match Written(n, data, offset)
    case Err(e) => Err(e)
    case Ok(n2) => Ok(Settled(n2))
  }

  /** The file after `write` of `data` at `offset`, before the marker test:
      raw bytes are spliced as bytes and the byte count recorded; otherwise the
      data must decode as UTF-8 and is spliced into the text (absent content
      counts as empty, null content raises `TypeError`) with its UTF-8 size
      recorded. */
  function Written(n: Node, data: seq<Utf8.byte>, offset: nat): (r: Result<Node, Error>)
    requires n.Valid()
    ensures r.Err? <==> !n.content.Bytes? && (Utf8.Decode(data).None? || n.content.Null?)
    ensures r.Err? && Utf8.Decode(data).None? ==> r.error == DecodeError
    ensures r.Err? && Utf8.Decode(data).Some? ==> r.error == TypeError
    ensures r.Ok? ==> r.value.Valid() && r.value.kind == n.kind && r.value.children == n.children && r.value.xattrs == n.xattrs
    ensures r.Ok? ==> forall a :: a != "st_size" ==> AttrOf(r.value, a) == AttrOf(n, a)
    ensures r.Ok? ==> r.value.content == Spliced(n.content, data, offset)
    ensures r.Ok? ==> AttrOf(r.value, "st_size") == Some(Numerals.IntToString(ByteSize(r.value.content)))
  {
    match n.content
    case Bytes(x) =>
      var c := BytesSpliced(x, offset, data);
      Ok(WithAttr(n.(content := Bytes(c)), "st_size", Numerals.IntToString(|c|)))
    case Null => if Utf8.Decode(data).None? then Err(DecodeError) else Err(TypeError)
    case _ =>
      match LegacyFs.WriteNode(n, data, offset)
      case Err(e) => Err(e)
      case Ok((n2, _)) => Ok(n2)
  }

  /** The content a write leaves before the marker test: the spliced bytes, or
      the spliced text of the decoded data. */
  function Spliced(b: Body, data: seq<Utf8.byte>, offset: nat): Body
  {
    match b
    case Bytes(x) => Bytes(BytesSpliced(x, offset, data))
    case Text(t) => Text(LegacyFs.Spliced(t, offset, Decoded(data)))
    case _ => Text(LegacyFs.Spliced("", offset, Decoded(data)))
  }

  /** The text `data` decodes to, empty when it is not UTF-8. */
  function Decoded(data: seq<Utf8.byte>): string
  {
    match Utf8.Decode(data)
    case Some(d) => d
    case None => ""
  }

  /** A file still marked for generation is emptied after a write. */
  function Settled(n: Node): (r: Node)
    requires n.Valid()
    ensures r.Valid() && r.kind == n.kind && r.children == n.children && r.xattrs == n.xattrs
    ensures forall a :: a != "st_size" ==> AttrOf(r, a) == AttrOf(n, a)
    ensures XattrTruthy(n, Trigger.GenerateContent) ==> r == Blanked(n)
    ensures !XattrTruthy(n, Trigger.GenerateContent) ==> r == n
  {
    if XattrTruthy(n, Trigger.GenerateContent) then Blanked(n) else n
  }

  /** The node `write` works on and the filesystem before writing: the one a
      descriptor leads to; or the file found under `path`, opened first when
      its content is empty (ENOENT when there is no such file). */
  function Target(fs: Fs, path: string, fh: nat, g: Generation): (r: Result<(Fs, string), Error>)
    requires ValidStore(fs.store)
    ensures r.Ok? ==> ValidStore(r.value.0.store) && r.value.1 in r.value.0.store.entries
    ensures r.Err? ==> fh in fs.files || JsonFs.Find(fs.store, path).Err? || !(JsonFs.Find(fs.store, path).value.Some? && JsonFs.Find(fs.store, path).value.value.kind == File)
  {
    if fh in fs.files then
      match Held(fs, fh)
      case Err(e) => Err(e)
      case Ok(_) => Ok((fs, JsonFs.FindKey(fs.files[fh])))
    else
      match JsonFs.Find(fs.store, path)
      case Err(e) => Err(e)
      case Ok(None) => Err(NoEntry)
      case Ok(Some(n)) =>
        if n.kind != File then Err(NoEntry)
        else if Truthy(n.content) then Ok((fs, JsonFs.FindKey(path)))
        else Ok((Open(fs, path, g).fs, JsonFs.FindKey(path)))
  }

  /** `write(path, data, offset, fh)`: the node `Target` names is written by
      `WriteTo`; a failure to find it is returned with nothing changed. */
  function Write(fs: Fs, path: string, data: seq<Utf8.byte>, offset: nat, fh: nat, g: Generation): (r: Outcome<nat>)
    requires ValidStore(fs.store)
    ensures ValidStore(r.fs.store)
    ensures r.result.Ok? ==> r.result.value == |data|
    ensures var t := Target(fs, path, fh, g);
            && (t.Err? ==> r == Outcome(fs, Err(t.error)))
            && (t.Ok? ==> r == WriteTo(t.value.0, t.value.1, data, offset))
  {
    match Target(fs, path, fh, g)
    case Err(e) => Outcome(fs, Err(e))
    case Ok((f, k)) => WriteTo(f, k, data, offset)
  }

  /** Writes the node under `k`, which must be a file (ENOENT otherwise), and
      returns the number of bytes given; a failed write changes nothing. */
  function WriteTo(f: Fs, k: string, data: seq<Utf8.byte>, offset: nat): (r: Outcome<nat>)
    requires ValidStore(f.store) && k in f.store.entries
    ensures ValidStore(r.fs.store)
    ensures var n := f.store.entries[k];
            && (r.result.Ok? <==> n.kind == File && WriteNode(n, data, offset).Ok?)
            && (n.kind != File ==> r.result == Err(NoEntry))
            && (r.result.Ok? ==> r == Outcome(f.(store := f.store.Put(k, WriteNode(n, data, offset).value)), Ok(|data|)))
            && (r.result.Err? ==> r.fs == f)
  {
    var n := f.store.entries[k];
    if n.kind != File then Outcome(f, Err(NoEntry))
    else
      match WriteNode(n, data, offset)
      case Err(e) => Outcome(f, Err(e))
      case Ok(n2) =>
        PutValid(f.store, k, n2);
        Outcome(f.(store := f.store.Put(k, n2)), Ok(|data|))
  }

  /** A write without a descriptor to a file with content stores the node
      `WriteNode` builds under the file's path. */
  lemma WriteFilled(fs: Fs, p: string, data: seq<Utf8.byte>, offset: nat, fh: nat, g: Generation)
    requires ValidStore(fs.store) && Paths.Canonical(p) && p != "/" && fh !in fs.files
    requires p in fs.store.entries && fs.store.entries[p].kind == File && Truthy(fs.store.entries[p].content)
    requires WriteNode(fs.store.entries[p], data, offset).Ok?
    ensures Write(fs, p, data, offset, fh, g)
            == Outcome(fs.(store := fs.store.Put(p, WriteNode(fs.store.entries[p], data, offset).value)), Ok(|data|))
  {
    assert Target(fs, p, fh, g) == Ok((fs, p)) by {
      JsonFs.FindCanonical(fs.store, p);
    }
  }

  /** Raw bytes written into a file of raw bytes that is not marked for
      generation are read back as written. */
  lemma WriteThenReadBytes(fs: Fs, p: string, data: seq<Utf8.byte>, offset: nat, fh: nat, g: Generation)
    requires ValidStore(fs.store) && Paths.Canonical(p) && p != "/" && fh !in fs.files
    requires p in fs.store.entries && fs.store.entries[p].kind == File
    requires fs.store.entries[p].content.Bytes? && |fs.store.entries[p].content.bytes| > 0
    requires !XattrTruthy(fs.store.entries[p], Trigger.GenerateContent)
    ensures var w := Write(fs, p, data, offset, fh, g);
            && w.result == Ok(|data|)
            && Read(w.fs, p, |data|, offset, fh, g, g).result == Ok(data)
  {
    var n := fs.store.entries[p];
    var c := BytesSpliced(n.content.bytes, offset, data);
    assert WriteNode(n, data, offset).Ok? && WriteNode(n, data, offset).value.content == Bytes(c);
    var n2 := WriteNode(n, data, offset).value;
    assert NeedsGeneration(n2) == Ok(false);
    var f := fs.(store := fs.store.Put(p, n2));
    assert Write(fs, p, data, offset, fh, g) == Outcome(f, Ok(|data|)) by {
      WriteFilled(fs, p, data, offset, fh, g);
    }
    assert Read(f, p, |data|, offset, fh, g, g).result == ReadBytes(Bytes(c), |data|, offset, p) by {
      PutValid(fs.store, p, n2);
      assert f.store.entries[p] == n2;
      ReadSettled(f, p, |data|, offset, fh, g, g);
    }
    SplicedReadsBack(n.content.bytes, offset, data, p);
  }

  /** The bytes spliced in at an offset are the ones read back from there. */
  lemma SplicedReadsBack(prev: seq<Utf8.byte>, offset: nat, data: seq<Utf8.byte>, p: string)
    ensures ReadBytes(Bytes(BytesSpliced(prev, offset, data)), |data|, offset, p) == Ok(data)
  {
    var c := BytesSpliced(prev, offset, data);
    ReadBytesRange(c, |data|, offset, p);
    if |data| > 0 {
      assert c[offset..offset + |data|] == c[offset..];
    }
  }

  /** A write into a file still marked for generation reports every byte as
      written, yet leaves the file empty with recorded size 0. */
  lemma WriteMarkedDiscards(fs: Fs, p: string, data: seq<Utf8.byte>, offset: nat, fh: nat, g: Generation)
    requires ValidStore(fs.store) && Paths.Canonical(p) && p != "/" && fh !in fs.files
    requires p in fs.store.entries && fs.store.entries[p].kind == File && Truthy(fs.store.entries[p].content)
    requires XattrTruthy(fs.store.entries[p], Trigger.GenerateContent)
    requires WriteNode(fs.store.entries[p], data, offset).Ok?
    ensures var w := Write(fs, p, data, offset, fh, g);
            && w.result == Ok(|data|)
            && w.fs.store.Get(p).Some? && w.fs.store.Get(p).value.content == Text("")
            && AttrOf(w.fs.store.Get(p).value, "st_size") == Some("0")
  {
    WriteFilled(fs, p, data, offset, fh, g);
  }

  // ----------------------------------------------------------------- truncate

  /** The content after `truncate` to `length`: raw bytes cut or NUL-padded,
      text (absent content counting as empty) cut or space-padded to `length`
      characters; null content raises `TypeError`. */
  function Resized(b: Body, length: nat): (r: Result<Body, Error>)
    ensures r.Err? <==> b.Null?
    ensures r.Err? ==> r.error == TypeError
    ensures b.Bytes? ==> r == Ok(Bytes(BytesResized(b.bytes, length)))
    ensures b.Text? ==> r == Ok(Text(TextResized(b.text, length)))
    ensures b.Missing? ==> r == Ok(Text(TextResized("", length)))
  {
    match b
    case Null => Err(TypeError)
    case Bytes(x) => Ok(Bytes(BytesResized(x, length)))
    case Text(t) => Ok(Text(TextResized(t, length)))
    case Missing => Ok(Text(TextResized("", length)))
  }

  /** Raw bytes cut, or padded with NUL bytes, to `length` bytes. */
  function BytesResized(x: seq<Utf8.byte>, length: nat): (r: seq<Utf8.byte>)
    ensures |r| == length
    ensures length <= |x| ==> r == x[..length]
    ensures length > |x| ==> r[..|x|] == x && forall i :: |x| <= i < length ==> r[i] == 0
  {
    if length > |x| then x + Zeros(length - |x|) else x[..length]
  }

  /** Text cut, or padded with spaces, to `length` characters. */
  function TextResized(t: string, length: nat): (r: string)
    ensures |r| == length
    ensures length <= |t| ==> r == t[..length]
    ensures length > |t| ==> r[..|t|] == t && forall i :: |t| <= i < length ==> r[i] == ' '
  {
    if length > |t| then Text.LJust(t, length, ' ') else t[..length]
  }

  /** `truncate(path, length)`: the node under `path`, whatever its kind, gets
      the resized content and `length` as its recorded size; a missing node is
      left alone, and a failure changes nothing. */
  function Truncate(fs: Fs, path: string, length: nat): (r: Outcome<()>)
    requires ValidStore(fs.store)
    ensures ValidStore(r.fs.store) && r.fs.fd == fs.fd && r.fs.files == fs.files
    ensures r.result.Err? ==> r.fs == fs
    ensures JsonFs.Find(fs.store, path) == Ok(None) ==> r == Outcome(fs, Ok(()))
    ensures JsonFs.Find(fs.store, path).Ok? && JsonFs.Find(fs.store, path).value.Some? ==>
              var n := JsonFs.Find(fs.store, path).value.value;
              var c := Resized(n.content, length);
              && (r.result.Ok? <==> c.Ok?)
              && (c.Ok? ==> r.fs.store == fs.store.Put(JsonFs.FindKey(path), WithAttr(n.(content := c.value), "st_size", Numerals.IntToString(length))))
  {
    match JsonFs.Find(fs.store, path)
    case Err(e) => Outcome(fs, Err(e))
    case Ok(None) => Outcome(fs, Ok(()))
    case Ok(Some(n)) =>
      match Resized(n.content, length)
      case Err(e) => Outcome(fs, Err(e))
      case Ok(c) =>
        var n2 := WithAttr(n.(content := c), "st_size", Numerals.IntToString(length));
        PutValid(fs.store, JsonFs.FindKey(path), n2);
        Outcome(fs.(store := fs.store.Put(JsonFs.FindKey(path), n2)), Ok(()))
  }

  /** After truncating raw bytes, the recorded size and the byte size of the
      content are both `length`. */
  lemma TruncateBytesExact(fs: Fs, p: string, x: seq<Utf8.byte>, length: nat)
    requires ValidStore(fs.store) && Paths.Canonical(p) && p != "/"
    requires p in fs.store.entries && fs.store.entries[p].content == Bytes(x)
    ensures var n := Truncate(fs, p, length).fs.store.Get(p);
            && n.Some? && n.value.content.Bytes?
            && ByteSize(n.value.content) == length
            && AttrOf(n.value, "st_size").Some?
            && Numerals.ParseInt(AttrOf(n.value, "st_size").value) == Some(length as int)
  {
    var n := fs.store.entries[p];
    var n2 := WithAttr(n.(content := Bytes(BytesResized(x, length))), "st_size", Numerals.IntToString(length));
    assert Truncate(fs, p, length).fs.store == fs.store.Put(p, n2) by {
      JsonFs.FindCanonical(fs.store, p);
    }
    Numerals.ParsePrinted(length);
  }

  /** Truncating text counts characters: two two-byte characters truncated to
      3 are padded to three characters, five bytes, while 3 is recorded. */
  lemma TruncateTextCountsCharacters(fs: Fs, p: string)
    requires ValidStore(fs.store) && Paths.Canonical(p) && p != "/"
    requires p in fs.store.entries && fs.store.entries[p].content == Text("\U{E9}\U{E9}")
    ensures var n := Truncate(fs, p, 3).fs.store.Get(p);
            && n.Some? && n.value.content == Text("\U{E9}\U{E9} ")
            && ByteSize(n.value.content) == 5
            && AttrOf(n.value, "st_size") == Some(Numerals.IntToString(3))
  {
    var n := fs.store.entries[p];
    var n2 := WithAttr(n.(content := Text(TextResized("\U{E9}\U{E9}", 3))), "st_size", Numerals.IntToString(3));
    assert Truncate(fs, p, 3).fs.store == fs.store.Put(p, n2) by {
      JsonFs.FindCanonical(fs.store, p);
    }
    assert TextResized("\U{E9}\U{E9}", 3) == "\U{E9}\U{E9} ";
    assert Utf8.Len("\U{E9}\U{E9} ") == 5 by {
      Utf8.EncodeAppend("\U{E9}", "\U{E9} ");
      Utf8.EncodeAppend("\U{E9}", " ");
    }
  }
}
