/**
 The filesystem operations both `Memory` implementations perform directly on
 the node store: adding a node under its parent (create, mkdir, symlink),
 attribute and extended-attribute updates, directory listing, link reading,
 rename, unlink and rmdir.

 Python mutates the shared node dictionaries in place and may raise after a
 first mutation; every operation therefore returns the store as it is after
 the call together with its outcome.
 */
module StoreOps {
  import opened Wrappers
  import opened Dicts
  import opened Nodes
  import JsonFs
  import Paths
  import Bits
  import Numerals


  /** The store after an operation and the operation's outcome. */
  datatype Step<T> = Step(store: Store, result: Result<T, Error>)

  /** `_split_path`: the dirname and basename of the normalised path. */
  function SplitPath(path: string): (r: (string, string))
    ensures '/' !in r.1
  {
    var p := Paths.NormPath(path);
    (Paths.Dirname(p), Paths.Basename(p))
  }

  /** For a child of a normalised directory, `_split_path` gives back the directory and the name. */
  lemma SplitChild(parent: string, name: string)
    requires Paths.Canonical(parent) && Paths.ValidName(name)
    ensures Paths.Canonical(Paths.Child(parent, name))
    ensures SplitPath(Paths.Child(parent, name)) == (parent, name)
    ensures Paths.Child(parent, name) != parent
  {
    var c := Paths.Child(parent, name);
    Paths.ChildCanonical(parent, name);
    Paths.NormPathCanonical(c);
    Paths.ChildParts(parent, name);
    assert |c| > |parent|;
  }

  /** The node `create` stores: an empty file with mode `S_IFREG | mode`. */
  function NewFile(mode: int): (n: Node)
    ensures n.Valid() && n.kind == File && n.content == Text("")
    ensures n.children.None? && n.xattrs.None?
    ensures AttrOf(n, "st_mode") == Some(Numerals.IntToString(Bits.BitOr(Bits.S_IFREG, mode)))
  {
    Node(File, Text(""), None, Empty<string, string>().Put("st_mode", Numerals.IntToString(Bits.BitOr(Bits.S_IFREG, mode))), None)
  }

  /** The node `mkdir` stores: a directory with no children and mode `S_IFDIR | mode`. */
  function NewDirectory(mode: int): (n: Node)
    ensures n.Valid() && n.kind == Directory && n.content == Missing
    ensures n.children == Some(Empty()) && n.xattrs.None?
    ensures AttrOf(n, "st_mode") == Some(Numerals.IntToString(Bits.BitOr(Bits.S_IFDIR, mode)))
  {
    Node(Directory, Missing, Some(Empty()), Empty<string, string>().Put("st_mode", Numerals.IntToString(Bits.BitOr(Bits.S_IFDIR, mode))), None)
  }

  /** `S_IFLNK | 0o777`. */
  const SymlinkMode: int := 0xA1FF

  /** The node `symlink` stores: its content is the link's source path. */
  function NewSymlink(source: string): (n: Node)
    ensures n.Valid() && n.kind == Symlink && n.content == Text(source)
    ensures n.children.None? && n.xattrs.None?
    ensures AttrOf(n, "st_mode") == Some(Numerals.IntToString(SymlinkMode))
  {
    Node(Symlink, Text(source), None, Empty<string, string>().Put("st_mode", Numerals.IntToString(SymlinkMode)), None)
  }

  lemma SymlinkModeBits()
    ensures SymlinkMode == Bits.BitOr(Bits.S_IFLNK, 0x1FF)
  {
    Bits.TypeOrPermission(0x1FF);
  }

  /** The step create, mkdir and symlink share: find the parent of the
      normalised path (ENOENT when there is none, or, when `dirOnly`, when it is
      not a directory), store the node under the path as given, then link the
      basename to that path in the parent's children. A parent without a
      children map raises `KeyError` after the node has been stored. */
  function AddNode(s: Store, path: string, n: Node, dirOnly: bool): (r: Step<()>)
    requires ValidStore(s) && n.Valid()
    ensures ValidStore(r.store)
    ensures JsonFs.Find(s, SplitPath(path).0).Err? ==> r == Step(s, Err(KeyError))
    ensures JsonFs.Find(s, SplitPath(path).0) == Ok(None) ==> r == Step(s, Err(NoEntry))
    ensures r.result.Ok? ==>
              var pk := JsonFs.FindKey(SplitPath(path).0);
              && pk in s.entries && s.entries[pk].children.Some?
              && (!dirOnly || s.entries[pk].kind == Directory)
              && (pk != path ==> r.store.Get(path) == Some(n))
              && (pk != path ==> r.store.Get(pk) == Some(LinkChild(s.entries[pk], SplitPath(path).1, path).value))
              && (pk == path ==> r.store == s.Put(path, n))
              && (forall k :: k != path && k != pk ==> r.store.Get(k) == s.Get(k))
    ensures r.result.Err? ==> r.store == s || r.store == s.Put(path, n)
  {
    var (dir, base) := SplitPath(path);
    AddNodeAt(s, path, n, dirOnly, JsonFs.Find(s, dir), JsonFs.FindKey(dir), base)
  }

  /** `AddNode` once the parent has been looked up: `found` is what `find`
      returned and `pk` the key it read. */
  function AddNodeAt(s: Store, path: string, n: Node, dirOnly: bool,
                     found: Result<Option<Node>, Error>, pk: string, base: string): (r: Step<()>)
    requires ValidStore(s) && n.Valid()
    requires found.Ok? && found.value.Some? ==> pk in s.entries && s.entries[pk] == found.value.value
    ensures ValidStore(r.store)
    ensures found.Err? ==> r == Step(s, Err(found.error))
    ensures found == Ok(None) ==> r == Step(s, Err(NoEntry))
    ensures r.result.Ok? ==>
              && found.Ok? && found.value.Some?
              && pk in s.entries && s.entries[pk].children.Some?
              && (!dirOnly || s.entries[pk].kind == Directory)
              && (pk != path ==> r.store.Get(path) == Some(n))
              && (pk != path ==> r.store.Get(pk) == Some(LinkChild(s.entries[pk], base, path).value))
              && (pk == path ==> r.store == s.Put(path, n))
              && (forall k :: k != path && k != pk ==> r.store.Get(k) == s.Get(k))
    ensures r.result.Err? ==> r.store == s || r.store == s.Put(path, n)
  {
    match found
    case Err(e) => Step(s, Err(e))
    case Ok(None) => Step(s, Err(NoEntry))
    case Ok(Some(parent)) =>
      if dirOnly && parent.kind != Directory then Step(s, Err(NoEntry))
      else
        PutValid(s, path, n);
        var s1 := s.Put(path, n);
        match LinkChild(parent, base, path)
        case Err(e) => Step(s1, Err(e))
        case Ok(linked) =>
          if pk == path then Step(s1, Ok(()))
          else
            PutValid(s1, pk, linked);
            var s2 := s1.Put(pk, linked);
            assert s2.Get(path) == Some(n);
            assert forall k :: k != path && k != pk ==> s2.Get(k) == s.Get(k);
            Step(s2, Ok(()))
  }

  /** The store `AddNode` leaves when `_split_path` names an existing
      directory of a normalised path. */
  lemma AddNodeStore(s: Store, c: string, parent: string, name: string, n: Node, dirOnly: bool)
    requires ValidStore(s) && n.Valid() && Paths.Canonical(parent)
    requires SplitPath(c) == (parent, name) && c != parent
    requires parent in s.entries && s.entries[parent].kind == Directory && s.entries[parent].children.Some?
    ensures LinkChild(s.entries[parent], name, c).Ok?
    ensures AddNode(s, c, n, dirOnly) == Step(s.Put(c, n).Put(parent, LinkChild(s.entries[parent], name, c).value), Ok(()))
  {
    JsonFs.FindCanonical(s, parent);
    assert JsonFs.Find(s, parent) == Ok(Some(s.entries[parent]));
    assert AddNode(s, c, n, dirOnly) == AddNodeAt(s, c, n, dirOnly, JsonFs.Find(s, parent), parent, name);
  }

  /** create, mkdir and symlink under an existing directory of a normalised
      path: the node is stored under the child path and the parent lists it
      under its name; every other entry is left alone. */
  lemma AddNodeUnderParent(s: Store, parent: string, name: string, n: Node, dirOnly: bool)
    requires ValidStore(s) && n.Valid()
    requires Paths.Canonical(parent) && Paths.ValidName(name)
    requires parent in s.entries && s.entries[parent].kind == Directory && s.entries[parent].children.Some?
    ensures var r := AddNode(s, Paths.Child(parent, name), n, dirOnly);
            && r.result == Ok(())
            && r.store.Get(Paths.Child(parent, name)) == Some(n)
            && r.store.Get(parent) == Some(LinkChild(s.entries[parent], name, Paths.Child(parent, name)).value)
            && (forall k :: k != parent && k != Paths.Child(parent, name) ==> r.store.Get(k) == s.Get(k))
  {
    var c := Paths.Child(parent, name);
    SplitChild(parent, name);
    AddNodeStore(s, c, parent, name, n, dirOnly);
    PutTwice(s, c, n, parent, LinkChild(s.entries[parent], name, c).value);
  }

  lemma PutTwice(s: Store, c: string, n: Node, p: string, u: Node)
    requires s.Valid() && p != c
    ensures var st := s.Put(c, n).Put(p, u);
            && st.Get(c) == Some(n) && st.Get(p) == Some(u)
            && forall k :: k != p && k != c ==> st.Get(k) == s.Get(k)
  {
  }

  /** `chmod`: the new mode keeps the six file-type bits of the stored mode
      and takes the rest from `mode`. A missing node is ignored; a node without
      a mode raises `KeyError`, one whose mode is not an integer `ValueError`. */
  function Chmod(s: Store, path: string, mode: int): (r: Step<int>)
    requires ValidStore(s)
    ensures ValidStore(r.store)
    ensures r.result.Ok? ==> r.result.value == 0
    ensures JsonFs.Find(s, path) == Ok(None) ==> r == Step(s, Ok(0))
    ensures r.result.Err? ==> r.store == s
    ensures r.store != s ==>
              var k := JsonFs.FindKey(path);
              && k in s.entries
              && k in r.store.entries
              && (forall k' :: k' != k ==> r.store.Get(k') == s.Get(k'))
              && r.store.entries[k] == s.entries[k].(attrs := r.store.entries[k].attrs)
  {
    match JsonFs.Find(s, path)
    case Err(e) => Step(s, Err(e))
    case Ok(None) => Step(s, Ok(0))
    case Ok(Some(n)) =>
      match AttrOf(n, "st_mode")
      case None => Step(s, Err(KeyError))
      case Some(m) =>
        match Numerals.ParseInt(m)
        case None => Step(s, Err(ValueError))
        case Some(prev) =>
          var mode' := Numerals.IntToString(Bits.ChmodMode(prev, mode));
          Step(s.Put(JsonFs.FindKey(path), WithAttr(n, "st_mode", mode')), Ok(0))
  }

  /** After a permission-only `chmod`, the stored mode reads back as an integer
      whose low twelve bits are `mode` and whose file-type bits are the old ones. */
  lemma ChmodKeepsType(s: Store, path: string, mode: int, prev: int)
    requires ValidStore(s) && 0 <= mode < 0x1000
    requires JsonFs.Find(s, path).Ok? && JsonFs.Find(s, path).value.Some?
    requires AttrOf(JsonFs.Find(s, path).value.value, "st_mode").Some?
    requires Numerals.ParseInt(AttrOf(JsonFs.Find(s, path).value.value, "st_mode").value) == Some(prev)
    ensures var r := Chmod(s, path, mode);
            && r.result == Ok(0)
            && JsonFs.FindKey(path) in r.store.entries
            && AttrOf(r.store.entries[JsonFs.FindKey(path)], "st_mode").Some?
            && var v := Numerals.ParseInt(AttrOf(r.store.entries[JsonFs.FindKey(path)], "st_mode").value);
               && v.Some?
               && v.value % 0x1000 == mode
               && v.value / 0x1000 == (prev / 0x1000) % 64
  {
    Numerals.ParsePrinted(Bits.ChmodMode(prev, mode));
    Bits.ChmodKeepsFileType(prev, mode);
  }

  /** `chown`: records the owner and group as decimal strings. */
  function Chown(s: Store, path: string, uid: int, gid: int): (r: Step<()>)
    requires ValidStore(s)
    ensures ValidStore(r.store)
    ensures r.result.Err? <==> JsonFs.Find(s, path).Err?
    ensures JsonFs.Find(s, path).Ok? && JsonFs.Find(s, path).value.Some? ==>
              var k := JsonFs.FindKey(path);
              && k in r.store.entries
              && AttrOf(r.store.entries[k], "st_uid") == Some(Numerals.IntToString(uid))
              && AttrOf(r.store.entries[k], "st_gid") == Some(Numerals.IntToString(gid))
              && (forall a :: a != "st_uid" && a != "st_gid" ==> AttrOf(r.store.entries[k], a) == AttrOf(s.entries[k], a))
              && (forall k' :: k' != k ==> r.store.Get(k') == s.Get(k'))
    ensures JsonFs.Find(s, path) == Ok(None) ==> r.store == s
  {
    match JsonFs.Find(s, path)
    case Err(e) => Step(s, Err(e))
    case Ok(None) => Step(s, Ok(()))
    case Ok(Some(n)) =>
      var n' := WithAttr(WithAttr(n, "st_uid", Numerals.IntToString(uid)), "st_gid", Numerals.IntToString(gid));
      Step(s.Put(JsonFs.FindKey(path), n'), Ok(()))
  }

  /** `node.get("xattrs", {}).get(name, '')`; a missing node raises `AttributeError`. */
  function Getxattr(s: Store, path: string, name: string): (r: Result<string, Error>)
    ensures JsonFs.Find(s, path) == Ok(None) ==> r == Err(AttributeError)
    ensures JsonFs.Find(s, path).Ok? && JsonFs.Find(s, path).value.Some? ==>
              r == Ok(XattrOf(JsonFs.Find(s, path).value.value, name).GetOr(""))
  {
    match JsonFs.Find(s, path)
    case Err(e) => Err(e)
    case Ok(None) => Err(AttributeError)
    case Ok(Some(n)) => Ok(XattrOf(n, name).GetOr(""))
  }

  /** `list(node.get("xattrs", {}).keys())`. */
  function Listxattr(s: Store, path: string): (r: Result<seq<string>, Error>)
    requires ValidStore(s)
    ensures JsonFs.Find(s, path) == Ok(None) ==> r == Err(AttributeError)
    ensures r.Ok? ==> JsonFs.Find(s, path).Ok? && JsonFs.Find(s, path).value.Some?
    ensures r.Ok? ==> forall a :: a in r.value <==>
              XattrOf(JsonFs.Find(s, path).value.value, a).Some?
    ensures r.Ok? ==> var n := JsonFs.Find(s, path).value.value;
              r.value == (if n.xattrs.Some? then n.xattrs.value.keys else [])
  {
    match JsonFs.Find(s, path)
    case Err(e) => Err(e)
    case Ok(None) => Err(AttributeError)
    case Ok(Some(n)) =>
      match n.xattrs
      case None => Ok([])
      case Some(x) => Ok(x.keys)
  }

  /** The extended-attribute map with `name` set; created when the node has none. */
  function SetXattrOf(n: Node, name: string, value: string): (r: Node)
    requires n.Valid()
    ensures r.Valid() && r.xattrs.Some?
    ensures r == n.(xattrs := r.xattrs)
    ensures XattrOf(r, name) == Some(value)
    ensures forall a :: a != name ==> XattrOf(r, a) == XattrOf(n, a)
  {
    var x := if n.xattrs.Some? then n.xattrs.value else Empty();
    n.(xattrs := Some(x.Put(name, value)))
  }

  /** `setxattr`: a missing node is ignored. */
  function Setxattr(s: Store, path: string, name: string, value: string): (r: Step<()>)
    requires ValidStore(s)
    ensures ValidStore(r.store)
    ensures r.result.Err? <==> JsonFs.Find(s, path).Err?
    ensures JsonFs.Find(s, path) == Ok(None) ==> r.store == s
    ensures JsonFs.Find(s, path).Ok? && JsonFs.Find(s, path).value.Some? ==>
              var k := JsonFs.FindKey(path);
              && k in r.store.entries
              && r.store.entries[k] == SetXattrOf(s.entries[k], name, value)
              && (forall k' :: k' != k ==> r.store.Get(k') == s.Get(k'))
  {
    match JsonFs.Find(s, path)
    case Err(e) => Step(s, Err(e))
    case Ok(None) => Step(s, Ok(()))
    case Ok(Some(n)) => Step(s.Put(JsonFs.FindKey(path), SetXattrOf(n, name, value)), Ok(()))
  }

  /** `setxattr` followed by `getxattr` of the same name gives back the value,
      and leaves every other name as it was. */
  lemma SetxattrGetxattr(s: Store, path: string, name: string, value: string, other: string)
    requires ValidStore(s)
    requires JsonFs.Find(s, path).Ok? && JsonFs.Find(s, path).value.Some?
    ensures Getxattr(Setxattr(s, path, name, value).store, path, name) == Ok(value)
    ensures other != name ==> Getxattr(Setxattr(s, path, name, value).store, path, other) == Getxattr(s, path, other)
  {
  }

  /** `removexattr`: `xattrs.pop(name, None)` when the node has an xattrs map. */
  function Removexattr(s: Store, path: string, name: string): (r: Step<()>)
    requires ValidStore(s)
    ensures ValidStore(r.store)
    ensures r.result.Err? <==> JsonFs.Find(s, path).Err?
    ensures JsonFs.Find(s, path).Ok? && JsonFs.Find(s, path).value.Some? ==>
              var k := JsonFs.FindKey(path);
              && k in r.store.entries
              && r.store.entries[k] == s.entries[k].(xattrs := r.store.entries[k].xattrs)
              && (s.entries[k].xattrs.None? ==> r.store.entries[k].xattrs.None?)
              && XattrOf(r.store.entries[k], name).None?
              && (forall a :: a != name ==> XattrOf(r.store.entries[k], a) == XattrOf(s.entries[k], a))
              && (forall k' :: k' != k ==> r.store.Get(k') == s.Get(k'))
    ensures JsonFs.Find(s, path) == Ok(None) ==> r.store == s
  {
    match JsonFs.Find(s, path)
    case Err(e) => Step(s, Err(e))
    case Ok(None) => Step(s, Ok(()))
    case Ok(Some(n)) =>
      match n.xattrs
      case None => Step(s, Ok(()))
      case Some(x) => Step(s.Put(JsonFs.FindKey(path), n.(xattrs := Some(x.Remove(name)))), Ok(()))
  }

  /** Removing a name the node does not carry changes nothing that `getxattr`
      or `listxattr` can see. */
  lemma RemoveAbsentXattr(s: Store, path: string, name: string, a: string)
    requires ValidStore(s)
    requires JsonFs.Find(s, path).Ok? && JsonFs.Find(s, path).value.Some?
    requires XattrOf(JsonFs.Find(s, path).value.value, name).None?
    ensures Getxattr(Removexattr(s, path, name).store, path, a) == Getxattr(s, path, a)
  {
  }

  /** `readdir`: '.', '..' and the child names of a directory in insertion
      order; only '.' and '..' for anything else. */
  function Readdir(s: Store, path: string): (r: Result<seq<string>, Error>)
    ensures r.Ok? ==> |r.value| >= 2 && r.value[..2] == [".", ".."]
    ensures JsonFs.Find(s, path) == Ok(None) ==> r == Ok([".", ".."])
    ensures JsonFs.Find(s, path).Ok? && JsonFs.Find(s, path).value.Some? ==>
              var n := JsonFs.Find(s, path).value.value;
              && (n.kind != Directory ==> r == Ok([".", ".."]))
              && (n.kind == Directory && n.children.None? ==> r == Err(KeyError))
              && (n.kind == Directory && n.children.Some? ==> r == Ok([".", ".."] + n.children.value.keys))
  {
    match JsonFs.Find(s, path)
    case Err(e) => Err(e)
    case Ok(None) => Ok([".", ".."])
    case Ok(Some(n)) =>
      if n.kind != Directory then Ok([".", ".."])
      else
        match n.children
        case None => Err(KeyError)
        case Some(c) => Ok([".", ".."] + c.keys)
  }

  /** The listing of a directory stored under a normalised path. */
  lemma ReaddirDirectory(s: Store, p: string)
    requires Paths.Canonical(p)
    requires p in s.entries && s.entries[p].kind == Directory && s.entries[p].children.Some?
    ensures Readdir(s, p) == Ok([".", ".."] + s.entries[p].children.value.keys)
  {
    JsonFs.FindCanonical(s, p);
    assert JsonFs.Find(s, p) == Ok(Some(s.entries[p]));
  }

  /** The listing of a directory after `AddNode` linked a name in it. */
  lemma ReaddirAfterAddStore(s: Store, c: string, parent: string, name: string, n: Node, dirOnly: bool)
    requires ValidStore(s) && n.Valid() && Paths.Canonical(parent)
    requires SplitPath(c) == (parent, name) && c != parent
    requires parent in s.entries && s.entries[parent].kind == Directory && s.entries[parent].children.Some?
    ensures Readdir(AddNode(s, c, n, dirOnly).store, parent)
            == Ok([".", ".."] + LinkChild(s.entries[parent], name, c).value.children.value.keys)
  {
    var linked := LinkChild(s.entries[parent], name, c).value;
    var st := s.Put(c, n).Put(parent, linked);
    AddNodeStore(s, c, parent, name, n, dirOnly);
    assert st.entries[parent] == linked;
    ReaddirDirectory(st, parent);
  }

  /** After creating a child in an empty directory, the listing is '.', '..' and
      the child's name. */
  lemma ReaddirAfterAdd(s: Store, parent: string, name: string, n: Node, dirOnly: bool)
    requires ValidStore(s) && n.Valid()
    requires Paths.Canonical(parent) && Paths.ValidName(name)
    requires parent in s.entries && s.entries[parent].kind == Directory
    requires s.entries[parent].children == Some(Empty())
    ensures Readdir(AddNode(s, Paths.Child(parent, name), n, dirOnly).store, parent) == Ok([".", "..", name])
  {
    var c := Paths.Child(parent, name);
    SplitChild(parent, name);
    ReaddirAfterAddStore(s, c, parent, name, n, dirOnly);
    LinkIntoEmpty(s.entries[parent], name, c);
    ListingOfOne(Readdir(AddNode(s, c, n, dirOnly).store, parent), LinkChild(s.entries[parent], name, c).value.children.value.keys, name);
  }

  /** `mkdir` under an existing directory: the parent lists the new name and
      the new directory itself lists only '.' and '..'. */
  lemma MkdirThenReaddir(s: Store, parent: string, name: string, mode: int)
    requires ValidStore(s)
    requires Paths.Canonical(parent) && Paths.ValidName(name)
    requires parent in s.entries && s.entries[parent].kind == Directory && s.entries[parent].children.Some?
    ensures var r := AddNode(s, Paths.Child(parent, name), NewDirectory(mode), false);
            && r.result == Ok(())
            && Readdir(r.store, Paths.Child(parent, name)) == Ok([".", ".."])
            && Readdir(r.store, parent) == Ok([".", ".."] + LinkChild(s.entries[parent], name, Paths.Child(parent, name)).value.children.value.keys)
  {
    var c := Paths.Child(parent, name);
    SplitChild(parent, name);
    AddNodeStore(s, c, parent, name, NewDirectory(mode), false);
    var st := s.Put(c, NewDirectory(mode)).Put(parent, LinkChild(s.entries[parent], name, c).value);
    PutTwice(s, c, NewDirectory(mode), parent, LinkChild(s.entries[parent], name, c).value);
    ReaddirDirectory(st, c);
    assert [".", ".."] + Empty<string, string>().keys == [".", ".."];
    ReaddirAfterAddStore(s, c, parent, name, NewDirectory(mode), false);
  }

  lemma LinkIntoEmpty(parent: Node, name: string, c: string)
    requires parent.Valid() && parent.children == Some(Empty())
    ensures LinkChild(parent, name, c).value.children.value.keys == [name]
  {
  }

  lemma ListingOfOne(r: Result<seq<string>, Error>, keys: seq<string>, name: string)
    requires r == Ok([".", ".."] + keys) && keys == [name]
    ensures r == Ok([".", "..", name])
  {
    assert [".", ".."] + [name] == [".", "..", name];
  }

  /** `readlink`: `node.get("content", "")`, or "" for a missing node. */
  function Readlink(s: Store, path: string): (r: Result<Body, Error>)
    ensures r.Ok? ==> r.value != Missing
    ensures JsonFs.Find(s, path) == Ok(None) ==> r == Ok(Text(""))
    ensures JsonFs.Find(s, path).Ok? && JsonFs.Find(s, path).value.Some? ==>
              r == Ok(ContentOr(JsonFs.Find(s, path).value.value.content))
  {
    match JsonFs.Find(s, path)
    case Err(e) => Err(e)
    case Ok(None) => Ok(Text(""))
    case Ok(Some(n)) => Ok(ContentOr(n.content))
  }

  /** `readlink(t)` after `symlink(t, src)` under an existing directory is `src`. */
  lemma SymlinkReadlink(s: Store, parent: string, name: string, source: string)
    requires ValidStore(s)
    requires Paths.Canonical(parent) && Paths.ValidName(name)
    requires parent in s.entries && s.entries[parent].kind == Directory && s.entries[parent].children.Some?
    ensures var r := AddNode(s, Paths.Child(parent, name), NewSymlink(source), false);
            r.result == Ok(()) && Readlink(r.store, Paths.Child(parent, name)) == Ok(Text(source))
  {
    SplitChild(parent, name);
    SymlinkReadlinkAt(s, Paths.Child(parent, name), parent, name, source);
  }

  lemma SymlinkReadlinkAt(s: Store, c: string, parent: string, name: string, source: string)
    requires ValidStore(s) && Paths.Canonical(parent) && Paths.Canonical(c)
    requires SplitPath(c) == (parent, name) && c != parent
    requires parent in s.entries && s.entries[parent].kind == Directory && s.entries[parent].children.Some?
    ensures var r := AddNode(s, c, NewSymlink(source), false);
            r.result == Ok(()) && Readlink(r.store, c) == Ok(Text(source))
  {
    AddNodeStore(s, c, parent, name, NewSymlink(source), false);
    var st := s.Put(c, NewSymlink(source)).Put(parent, LinkChild(s.entries[parent], name, c).value);
    PutTwice(s, c, NewSymlink(source), parent, LinkChild(s.entries[parent], name, c).value);
    ReadlinkStored(st, c);
  }

  /** `readlink` of a node stored under a normalised path reads its content. */
  lemma ReadlinkStored(s: Store, p: string)
    requires Paths.Canonical(p) && p in s.entries
    ensures Readlink(s, p) == Ok(ContentOr(s.entries[p].content))
  {
    JsonFs.FindCanonical(s, p);
    if p != "/" {
      assert JsonFs.Find(s, p) == Ok(Some(s.entries[p]));
    }
  }

  /** Pops `name` from the children of the node stored under `key`. */
  function PopChild(s: Store, key: string, name: string): (r: Step<()>)
    requires ValidStore(s) && key in s.entries
    ensures ValidStore(r.store)
    ensures r.result.Ok? <==> UnlinkChild(s.entries[key], name).Ok?
    ensures r.result.Err? ==> r == Step(s, Err(KeyError))
    ensures r.result.Ok? ==> r.store == s.Put(key, UnlinkChild(s.entries[key], name).value)
  {
    match UnlinkChild(s.entries[key], name)
    case Err(e) => Step(s, Err(e))
    case Ok(n) => Step(s.Put(key, n), Ok(()))
  }

  /** `parent = self[dir]; parent["children"].pop(name)`: a missing parent is
      `None`, whose subscript raises `TypeError`. */
  function UnlinkFrom(s: Store, dir: string, name: string): (r: Step<()>)
    requires ValidStore(s)
    ensures ValidStore(r.store)
    ensures r.result.Err? ==> r.store == s
    ensures JsonFs.Find(s, dir) == Ok(None) ==> r == Step(s, Err(TypeError))
    ensures r.result.Ok? ==>
              var k := JsonFs.FindKey(dir);
              && k in s.entries
              && UnlinkChild(s.entries[k], name).Ok?
              && r.store == s.Put(k, UnlinkChild(s.entries[k], name).value)
  {
    match JsonFs.Find(s, dir)
    case Err(e) => Step(s, Err(e))
    case Ok(None) => Step(s, Err(TypeError))
    case Ok(Some(_)) => PopChild(s, JsonFs.FindKey(dir), name)
  }

  /** `del self._root._data[key]`. */
  function Delete(s: Store, key: string): (r: Step<()>)
    requires ValidStore(s)
    ensures ValidStore(r.store)
    ensures r.result.Ok? <==> key in s.entries
    ensures r.store == (if key in s.entries then s.Remove(key) else s)
    ensures r.result.Err? ==> r.result.error == KeyError
  {
    if key in s.entries then Step(s.Remove(key), Ok(())) else Step(s, Err(KeyError))
  }

  /** `rmdir`. A non-empty directory, a missing node and anything that is not a
      directory leave the store unchanged. An empty directory is popped from the
      children of its parent and then deleted under the path as given. The
      parent and the name come from `_split_path` when `normalise` holds (the
      split-out directory operations) and from the raw `dirname`/`basename`
      otherwise (the single-file `Memory`). */
  function Rmdir(s: Store, path: string, normalise: bool): (r: Step<()>)
    requires ValidStore(s)
    ensures ValidStore(r.store)
    ensures JsonFs.Find(s, path) == Ok(None) ==> r == Step(s, Ok(()))
    ensures JsonFs.Find(s, path).Ok? && JsonFs.Find(s, path).value.Some? ==>
              var n := JsonFs.Find(s, path).value.value;
              && (n.kind != Directory ==> r == Step(s, Ok(())))
              && (n.kind == Directory && n.children.None? ==> r == Step(s, Err(KeyError)))
              && (n.kind == Directory && n.children.Some? && n.children.value.keys != [] ==> r == Step(s, Ok(())))
  {
    match JsonFs.Find(s, path)
    case Err(e) => Step(s, Err(e))
    case Ok(None) => Step(s, Ok(()))
    case Ok(Some(n)) =>
      if n.kind != Directory then Step(s, Ok(()))
      else
        match n.children
        case None => Step(s, Err(KeyError))
        case Some(c) =>
          if c.keys != [] then Step(s, Ok(()))
          else
            var (dir, name) := if normalise then SplitPath(path) else (Paths.Dirname(path), Paths.Basename(path));
            var r1 := UnlinkFrom(s, dir, name);
            if r1.result.Err? then r1 else Delete(r1.store, path)
  }

  /** `rmdir` of an empty directory once its parent and name are known. */
  lemma RmdirEmptyStore(s: Store, c: string, parent: string, name: string, normalise: bool)
    requires ValidStore(s) && Paths.Canonical(c) && Paths.Canonical(parent) && c != "/" && c != parent
    requires SplitPath(c) == (parent, name) && Paths.Dirname(c) == parent && Paths.Basename(c) == name
    requires parent in s.entries && s.entries[parent].children.Some? && s.entries[parent].children.value.Has(name)
    requires c in s.entries && s.entries[c].kind == Directory && s.entries[c].children == Some(Empty())
    ensures Rmdir(s, c, normalise) == Step(s.Put(parent, UnlinkChild(s.entries[parent], name).value).Remove(c), Ok(()))
  {
    JsonFs.FindCanonical(s, c);
    assert JsonFs.Find(s, c) == Ok(Some(s.entries[c]));
    UnlinkFromDirectory(s, parent, name);
    var s1 := s.Put(parent, UnlinkChild(s.entries[parent], name).value);
    assert c in s1.entries;
    assert Delete(s1, c) == Step(s1.Remove(c), Ok(()));
  }

  /** `rmdir` of an empty directory of a normalised path removes its node and
      its parent's entry for it, and nothing else. Both variants agree here. */
  lemma RmdirEmpty(s: Store, parent: string, name: string, normalise: bool)
    requires ValidStore(s)
    requires Paths.Canonical(parent) && Paths.ValidName(name)
    requires parent in s.entries && s.entries[parent].children.Some?
    requires s.entries[parent].children.value.Has(name)
    requires Paths.Child(parent, name) in s.entries
    requires s.entries[Paths.Child(parent, name)].kind == Directory
    requires s.entries[Paths.Child(parent, name)].children == Some(Empty())
    ensures var r := Rmdir(s, Paths.Child(parent, name), normalise);
            && r.result == Ok(())
            && r.store.Get(Paths.Child(parent, name)) == None
            && parent in r.store.entries
            && r.store.entries[parent].children.Some?
            && r.store.entries[parent].children.value.Get(name) == None
            && (forall c :: c != name ==> r.store.entries[parent].children.value.Get(c) == s.entries[parent].children.value.Get(c))
            && (forall k :: k != parent && k != Paths.Child(parent, name) ==> r.store.Get(k) == s.Get(k))
  {
    var c := Paths.Child(parent, name);
    SplitChild(parent, name);
    Paths.ChildParts(parent, name);
    assert c != "/" by {
      assert Paths.Basename(c) == name;
    }
    RmdirEmptyStore(s, c, parent, name, normalise);
    PutThenRemove(s, parent, UnlinkChild(s.entries[parent], name).value, c);
  }

  lemma PutThenRemove(s: Store, p: string, u: Node, c: string)
    requires s.Valid() && p != c
    ensures var st := s.Put(p, u).Remove(c);
            && st.Get(p) == Some(u) && st.Get(c) == None
            && forall k :: k != p && k != c ==> st.Get(k) == s.Get(k)
  {
  }

  /** `unlink`: only a key stored exactly as given is removed, after popping its
      name from the parent found by `dirname`. */
  function Unlink(s: Store, path: string): (r: Step<()>)
    requires ValidStore(s)
    ensures ValidStore(r.store)
    ensures path !in s.entries ==> r == Step(s, Ok(()))
    ensures r.result.Ok? && path in s.entries ==>
              r.store.Get(path) == None
              && var k := JsonFs.FindKey(Paths.Dirname(path));
                 && k in s.entries && UnlinkChild(s.entries[k], Paths.Basename(path)).Ok?
                 && (forall k' :: k' != k && k' != path ==> r.store.Get(k') == s.Get(k'))
    ensures r.result.Err? ==> r.store == s
  {
    UnlinkParts(s, path, Paths.Dirname(path), Paths.Basename(path))
  }

  /** `Unlink` with `dirname` and `basename` of the path already taken. */
  function UnlinkParts(s: Store, path: string, d: string, b: string): (r: Step<()>)
    requires ValidStore(s)
    ensures ValidStore(r.store)
    ensures path !in s.entries ==> r == Step(s, Ok(()))
    ensures r.result.Ok? && path in s.entries ==>
              r.store.Get(path) == None
              && var k := JsonFs.FindKey(d);
                 && k in s.entries && UnlinkChild(s.entries[k], b).Ok?
                 && (forall k' :: k' != k && k' != path ==> r.store.Get(k') == s.Get(k'))
    ensures r.result.Err? ==> r.store == s
  {
    if path !in s.entries then Step(s, Ok(()))
    else
      var r1 := UnlinkFrom(s, d, b);
      if r1.result.Err? then r1
      else
        var k := JsonFs.FindKey(d);
        var u := UnlinkChild(s.entries[k], b).value;
        assert r1.store == s.Put(k, u);
        assert path in r1.store.entries by {
          assert path != k ==> r1.store.Get(path) == s.Get(path);
        }
        RemoveValid(r1.store, path);
        var st := r1.store.Remove(path);
        assert forall k' :: k' != k && k' != path ==> st.Get(k') == s.Get(k');
        Step(st, Ok(()))
  }

  /** `parent["children"][name] = target` for the parent `find` returned
      (`found`, read under `pk`): a missing parent is `None`, whose subscript
      raises `TypeError`; a parent without children raises `KeyError`. */
  function LinkAt(s: Store, found: Result<Option<Node>, Error>, pk: string, name: string, target: string): (r: Step<()>)
    requires ValidStore(s)
    requires found.Ok? && found.value.Some? ==> pk in s.entries && s.entries[pk] == found.value.value
    ensures ValidStore(r.store)
    ensures r.result.Err? ==> r.store == s
    ensures found == Ok(None) ==> r.result == Err(TypeError)
    ensures r.result.Ok? ==>
              && found.Ok? && found.value.Some? && s.entries[pk].children.Some?
              && r.store == s.Put(pk, LinkChild(s.entries[pk], name, target).value)
  {
    match found
    case Err(e) => Step(s, Err(e))
    case Ok(None) => Step(s, Err(TypeError))
    case Ok(Some(p)) =>
      match LinkChild(p, name, target)
      case Err(e) => Step(s, Err(e))
      case Ok(linked) => Step(s.Put(pk, linked), Ok(()))
  }

  /** `rename`: only a key stored exactly as `old` moves. The node is popped,
      its name popped from the old parent's children (a missing parent raises
      `TypeError`, a missing name `KeyError`), then it is stored under `new` and
      linked in the new parent. A failure after the pop loses the node. */
  function Rename(s: Store, src: string, dst: string): (r: Step<()>)
    requires ValidStore(s)
    ensures ValidStore(r.store)
    ensures src !in s.entries ==> r == Step(s, Ok(()))
    ensures src in s.entries && src != dst ==> r.store.Get(src) == None
    ensures r.result.Ok? && src in s.entries ==>
              var k := JsonFs.FindKey(Paths.Dirname(dst));
              && k in r.store.entries && r.store.entries[k].children.Some?
              && r.store.entries[k].children.value.Get(Paths.Basename(dst)) == Some(dst)
              && (k != dst ==> r.store.Get(dst) == Some(s.entries[src]))
  {
    RenameParts(s, src, dst, Paths.Dirname(src), Paths.Basename(src), Paths.Dirname(dst), Paths.Basename(dst))
  }

  /** `Rename` with `dirname` and `basename` of the old path (`d1`, `b1`) and of
      the new path (`d2`, `b2`) already taken. */
  function RenameParts(s: Store, src: string, dst: string, d1: string, b1: string, d2: string, b2: string): (r: Step<()>)
    requires ValidStore(s)
    ensures ValidStore(r.store)
    ensures src !in s.entries ==> r == Step(s, Ok(()))
    ensures src in s.entries && src != dst ==> r.store.Get(src) == None
    ensures r.result.Ok? && src in s.entries ==>
              var k := JsonFs.FindKey(d2);
              && k in r.store.entries && r.store.entries[k].children.Some?
              && r.store.entries[k].children.value.Get(b2) == Some(dst)
              && (k != dst ==> r.store.Get(dst) == Some(s.entries[src]))
  {
    if src !in s.entries then Step(s, Ok(()))
    else
      RemoveValid(s, src);
      Relink(s.Remove(src), s.entries[src], src, dst, d1, b1, d2, b2)
  }

  /** What `rename` does after popping the node stored under `src`: unlink its
      old name, store it under `dst` and link it in the new parent. */
  function Relink(s1: Store, node: Node, src: string, dst: string, d1: string, b1: string, d2: string, b2: string): (r: Step<()>)
    requires ValidStore(s1) && node.Valid() && src !in s1.entries
    ensures ValidStore(r.store)
    ensures src != dst ==> r.store.Get(src) == None
    ensures r.result.Ok? ==>
              var k := JsonFs.FindKey(d2);
              && k in r.store.entries && r.store.entries[k].children.Some?
              && r.store.entries[k].children.value.Get(b2) == Some(dst)
              && (k != dst ==> r.store.Get(dst) == Some(node))
  {
    var r2 := UnlinkFrom(s1, d1, b1);
    if r2.result.Err? then Step(s1, r2.result)
    else
      assert r2.store.Get(src) == None;
      PutValid(r2.store, dst, node);
      var s3 := r2.store.Put(dst, node);
      LinkAt(s3, JsonFs.Find(s3, d2), JsonFs.FindKey(d2), b2, dst)
  }

  /** Popping a listed name from a directory stored under a normalised path. */
  lemma UnlinkFromDirectory(s: Store, p: string, name: string)
    requires ValidStore(s) && Paths.Canonical(p)
    requires p in s.entries && s.entries[p].children.Some? && s.entries[p].children.value.Has(name)
    ensures UnlinkFrom(s, p, name) == Step(s.Put(p, UnlinkChild(s.entries[p], name).value), Ok(()))
  {
    JsonFs.FindCanonical(s, p);
    if p != "/" {
      assert JsonFs.Find(s, p) == Ok(Some(s.entries[p]));
    }
  }

  /** Linking a name into a directory stored under a normalised path. */
  lemma LinkAtDirectory(s: Store, p: string, name: string, target: string)
    requires ValidStore(s) && Paths.Canonical(p)
    requires p in s.entries && s.entries[p].children.Some?
    ensures LinkAt(s, JsonFs.Find(s, p), JsonFs.FindKey(p), name, target)
            == Step(s.Put(p, LinkChild(s.entries[p], name, target).value), Ok(()))
  {
    JsonFs.FindCanonical(s, p);
    if p != "/" {
      assert JsonFs.Find(s, p) == Ok(Some(s.entries[p]));
    }
  }

  /** `Relink` between two directories of normalised paths. */
  lemma RelinkStore(s1: Store, node: Node, src: string, dst: string, p1: string, n1: string, p2: string, n2: string)
    requires ValidStore(s1) && node.Valid() && src !in s1.entries && Paths.Canonical(p1) && Paths.Canonical(p2)
    requires p1 in s1.entries && s1.entries[p1].children.Some? && s1.entries[p1].children.value.Has(n1)
    requires p2 in s1.entries && s1.entries[p2].children.Some? && dst != p2
    ensures UnlinkChild(s1.entries[p1], n1).Ok?
    ensures p2 in s1.Put(p1, UnlinkChild(s1.entries[p1], n1).value).Put(dst, node).entries
    ensures var s3 := s1.Put(p1, UnlinkChild(s1.entries[p1], n1).value).Put(dst, node);
            Relink(s1, node, src, dst, p1, n1, p2, n2) == Step(s3.Put(p2, LinkChild(s3.entries[p2], n2, dst).value), Ok(()))
  {
    UnlinkFromDirectory(s1, p1, n1);
    var u := UnlinkChild(s1.entries[p1], n1).value;
    var s3 := s1.Put(p1, u).Put(dst, node);
    assert s3.Get(p2) == s1.Put(p1, u).Get(p2);
    LinkAtDirectory(s3, p2, n2, dst);
  }

  /** The store `rename` leaves when both parents are directories of
      normalised paths: the node moved, the old parent without the old name,
      the new parent with the new name. */
  lemma RenameStore(s: Store, src: string, dst: string, p1: string, n1: string, p2: string, n2: string)
    requires ValidStore(s) && Paths.Canonical(p1) && Paths.Canonical(p2)
    requires src in s.entries && src != p1 && src != p2 && dst != p2
    requires p1 in s.entries && s.entries[p1].children.Some? && s.entries[p1].children.value.Has(n1)
    requires p2 in s.entries && s.entries[p2].children.Some?
    ensures UnlinkChild(s.entries[p1], n1).Ok?
    ensures p2 in s.Remove(src).Put(p1, UnlinkChild(s.entries[p1], n1).value).Put(dst, s.entries[src]).entries
    ensures var s2 := s.Remove(src).Put(p1, UnlinkChild(s.entries[p1], n1).value).Put(dst, s.entries[src]);
            RenameParts(s, src, dst, p1, n1, p2, n2) == Step(s2.Put(p2, LinkChild(s2.entries[p2], n2, dst).value), Ok(()))
  {
    var s1 := s.Remove(src);
    RemoveValid(s, src);
    assert s1.Get(p1) == s.Get(p1) && s1.Get(p2) == s.Get(p2);
    RelinkStore(s1, s.entries[src], src, dst, p1, n1, p2, n2);
  }

  /** What `RenameStore` says, entry by entry. */
  lemma RenamePartsMoves(s: Store, src: string, dst: string, p1: string, n1: string, p2: string, n2: string)
    requires ValidStore(s) && Paths.Canonical(p1) && Paths.Canonical(p2)
    requires src in s.entries && src != p1 && src != p2 && dst != p2 && dst != p1
    requires p1 in s.entries && s.entries[p1].children.Some? && s.entries[p1].children.value.Has(n1)
    requires p2 in s.entries && s.entries[p2].children.Some?
    ensures var r := RenameParts(s, src, dst, p1, n1, p2, n2);
            && r.result == Ok(())
            && r.store.Get(dst) == Some(s.entries[src])
            && (dst != src ==> r.store.Get(src) == None)
            && p2 in r.store.entries && r.store.entries[p2].children.Some?
            && r.store.entries[p2].children.value.Get(n2) == Some(dst)
            && (p1 != p2 ==> p1 in r.store.entries && r.store.entries[p1].children.Some?
                             && r.store.entries[p1].children.value.Get(n1) == None)
  {
    RenameStore(s, src, dst, p1, n1, p2, n2);
    var node := s.entries[src];
    var unlinked := UnlinkChild(s.entries[p1], n1).value;
    var s1 := s.Remove(src);
    var s2 := s1.Put(p1, unlinked);
    var s3 := s2.Put(dst, node);
    assert s3.Get(p2) == s2.Get(p2);
    assert s2.Get(p2) == (if p1 == p2 then Some(unlinked) else s1.Get(p2));
    var linked := LinkChild(s3.entries[p2], n2, dst).value;
    var st := s3.Put(p2, linked);
    assert st.Get(dst) == Some(node);
    assert linked.children.value.Get(n2) == Some(dst);
    if p1 != p2 {
      assert st.Get(p1) == s3.Get(p1);
      assert st.entries[p1] == unlinked;
    }
  }

  /** Renaming a node between two existing directories of normalised paths
      moves it: the old path and its listing are gone, the new path holds the
      node and its parent lists it. */
  lemma RenameMoves(s: Store, p1: string, n1: string, p2: string, n2: string)
    requires ValidStore(s)
    requires Paths.Canonical(p1) && Paths.ValidName(n1) && Paths.Canonical(p2) && Paths.ValidName(n2)
    requires Paths.Child(p1, n1) in s.entries
    requires p1 in s.entries && s.entries[p1].children.Some? && s.entries[p1].children.value.Has(n1)
    requires p2 in s.entries && s.entries[p2].children.Some?
    requires p2 != Paths.Child(p1, n1) && p1 != Paths.Child(p2, n2)
    ensures var r := Rename(s, Paths.Child(p1, n1), Paths.Child(p2, n2));
            && r.result == Ok(())
            && r.store.Get(Paths.Child(p2, n2)) == Some(s.entries[Paths.Child(p1, n1)])
            && (Paths.Child(p2, n2) != Paths.Child(p1, n1) ==> r.store.Get(Paths.Child(p1, n1)) == None)
            && p2 in r.store.entries && r.store.entries[p2].children.Some?
            && r.store.entries[p2].children.value.Get(n2) == Some(Paths.Child(p2, n2))
            && (p1 != p2 ==> p1 in r.store.entries && r.store.entries[p1].children.Some?
                             && r.store.entries[p1].children.value.Get(n1) == None)
  {
    var src := Paths.Child(p1, n1);
    var dst := Paths.Child(p2, n2);
    SplitChild(p1, n1);
    SplitChild(p2, n2);
    Paths.ChildParts(p1, n1);
    Paths.ChildParts(p2, n2);
    assert Rename(s, src, dst) == RenameParts(s, src, dst, p1, n1, p2, n2);
    RenamePartsMoves(s, src, dst, p1, n1, p2, n2);
  }
}
