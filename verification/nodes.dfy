/**
 The node store shared by both filesystems. A path-keyed dictionary of nodes;
 each node is the JSON-like record `{"type", "content", "children", "attrs",
 "xattrs"}`. Directories list their entries in `children`, mapping a name to
 the full path of the child node.
 */
module Nodes {
  import opened Wrappers
  import opened Dicts
  import Utf8

  datatype Kind = File | Directory | Symlink

  /** The `"content"` entry of a node: absent, JSON null, text, or raw bytes. */
  datatype Body = Missing | Null | Text(text: string) | Bytes(bytes: seq<Utf8.byte>)

  /** A content value a generator can hand back. */
  datatype Content = TextContent(text: string) | BinaryContent(bytes: seq<Utf8.byte>)

  datatype Node = Node(
    kind: Kind,
    content: Body,
    children: Option<Dict<string, string>>,
    attrs: Dict<string, string>,
    xattrs: Option<Dict<string, string>>)
  {
    ghost predicate Valid()
    {
      && attrs.Valid()
      && (children.Some? ==> children.value.Valid())
      && (xattrs.Some? ==> xattrs.value.Valid())
    }
  }

  type Store = Dict<string, Node>

  ghost predicate ValidStore(s: Store)
  {
    s.Valid() && forall k :: k in s.entries ==> s.entries[k].Valid()
  }

  /** Storing a valid node keeps the store valid. */
  lemma PutValid(s: Store, k: string, n: Node)
    requires ValidStore(s) && n.Valid()
    ensures ValidStore(s.Put(k, n))
  {
    var r := s.Put(k, n);
    forall k' | k' in r.entries ensures r.entries[k'].Valid() {
      if k' != k { assert r.Get(k') == s.Get(k'); }
    }
  }

  /** Removing a key keeps the store valid. */
  lemma RemoveValid(s: Store, k: string)
    requires ValidStore(s)
    ensures ValidStore(s.Remove(k))
  {
    var r := s.Remove(k);
    forall k' | k' in r.entries ensures r.entries[k'].Valid() {
      assert r.Get(k') == s.Get(k');
    }
  }

  /** Every child link names a path strictly longer than its parent's, as a
      link made by joining the parent's path and a name does. The walks over
      `children` terminate on such a store; on a store with a cycle the
      Python recursion does not. */
  predicate Descending(s: Store)
  {
    forall p, n :: p in s.entries && s.entries[p].children.Some? && n in s.entries[p].children.value.entries ==>
      |s.entries[p].children.value.entries[n]| > |p|
  }

  /** The stored paths longer than `p`: what the walks use up. */
  ghost function Longer(s: Store, p: string): set<string>
  {
    set k | k in s.entries && |k| > |p|
  }

  lemma LongerShrinks(s: Store, p: string, c: string)
    requires c in s.entries && |c| > |p|
    ensures Longer(s, c) < Longer(s, p)
  {
    assert c in Longer(s, p) && c !in Longer(s, c);
  }

  /** `node.children.values()`, in the dict's order; none for a node
      without `children`. */
  function ChildPaths(n: Node): (r: seq<string>)
    requires n.Valid()
    ensures n.children.None? ==> r == []
    ensures n.children.Some? ==> |r| == |n.children.value.keys|
    ensures n.children.Some? ==>
              forall i :: 0 <= i < |r| ==> r[i] == n.children.value.entries[n.children.value.keys[i]]
  {
    if n.children.Some? then n.children.value.Values() else []
  }

  /** In a descending store every child path of a node outruns the node's. */
  lemma ChildPathsLonger(s: Store, p: string)
    requires ValidStore(s) && Descending(s) && p in s.entries
    ensures forall i :: 0 <= i < |ChildPaths(s.entries[p])| ==> |ChildPaths(s.entries[p])[i]| > |p|
  {
    var n := s.entries[p];
    if n.children.Some? {
      var c := n.children.value;
      forall i | 0 <= i < |ChildPaths(n)| ensures |ChildPaths(n)[i]| > |p| {
        assert c.keys[i] in c.entries;
      }
    }
  }

  /** The exceptions the filesystem code raises or lets escape. */
  datatype Error =
    | NoEntry            // FuseOSError(ENOENT)
    | KeyError
    | AttributeError
    | TypeError
    | IndexError
    | ValueError
    | DecodeError        // UnicodeDecodeError
    | ValidationError    // a pydantic model rejected its input
    | RuntimeError(message: string)

  function ToBody(c: Content): (b: Body)
    ensures b.Text? || b.Bytes?
  {
    match c
    case TextContent(t) => Text(t)
    case BinaryContent(b) => Bytes(b)
  }

  /** `node.get("content", "")`. */
  function ContentOr(b: Body): (r: Body)
    ensures r != Missing
    ensures b != Missing ==> r == b
  {
    if b.Missing? then Text("") else b
  }

  /** Python truthiness of a content value: `None`, `""` and `b""` are false. */
  predicate Truthy(b: Body)
  {
    (b.Text? && |b.text| > 0) || (b.Bytes? && |b.bytes| > 0)
  }

  /** The text of a content value, for code that only handles text: binary
      content and no content count as no text. */
  function TextOf(b: Body): (r: string)
    ensures b.Text? ==> r == b.text
    ensures !b.Text? ==> r == ""
  {
    if b.Text? then b.text else ""
  }

  /** `len(node.get("content", "").encode('utf-8'))`: defined for text only. */
  function EncodedLen(b: Body): (r: Result<nat, Error>)
    ensures r.Ok? <==> b.Text? || b.Missing?
    ensures b.Text? ==> r == Ok(Utf8.Len(b.text))
    ensures b.Missing? ==> r == Ok(0)
  {
    match b
    case Missing => Ok(0)
    case Text(t) => Ok(Utf8.Len(t))
    case _ => Err(AttributeError)
  }

  /** `len(node.get("content", ""))`: characters of text, bytes of binary content. */
  function CharLen(b: Body): (r: Result<nat, Error>)
    ensures r.Err? <==> b.Null?
    ensures b.Text? ==> r == Ok(|b.text|)
    ensures b.Bytes? ==> r == Ok(|b.bytes|)
  {
    match b
    case Missing => Ok(0)
    case Text(t) => Ok(|t|)
    case Bytes(x) => Ok(|x|)
    case Null => Err(TypeError)
  }

  /** `node.get("xattrs", {}).get(name)`. */
  function XattrOf(n: Node, name: string): (r: Option<string>)
    ensures r.Some? <==> n.xattrs.Some? && name in n.xattrs.value.entries
  {
    match n.xattrs
    case None => None
    case Some(x) => x.Get(name)
  }

  /** The xattr is set to a non-empty string, which Python treats as true. */
  predicate XattrTruthy(n: Node, name: string)
  {
    XattrOf(n, name).Some? && |XattrOf(n, name).value| > 0
  }

  /** `node["attrs"].get(name)`. */
  function AttrOf(n: Node, name: string): Option<string>
  {
    n.attrs.Get(name)
  }

  function WithAttr(n: Node, name: string, value: string): (r: Node)
    requires n.Valid()
    ensures r.Valid()
    ensures r.kind == n.kind && r.content == n.content && r.children == n.children && r.xattrs == n.xattrs
    ensures AttrOf(r, name) == Some(value)
    ensures forall a :: a != name ==> AttrOf(r, a) == AttrOf(n, a)
  {
    n.(attrs := n.attrs.Put(name, value))
  }

  /** The timestamp, link-count and size attributes that are never serialised. */
  const Volatile: seq<string> := ["st_ctime", "st_mtime", "st_atime", "st_nlink", "st_size"]

  /** The attributes of a node as they are serialised: the volatile ones dropped,
      the others kept in their order. */
  function StripVolatile(attrs: Dict<string, string>): (r: Dict<string, string>)
    requires attrs.Valid()
    ensures r.Valid()
    ensures forall a :: a in Volatile ==> r.Get(a) == None
    ensures forall a :: a !in Volatile ==> r.Get(a) == attrs.Get(a)
  {
    RemoveAll(attrs, Volatile)
  }

  /** A node with its attributes stripped for serialisation; every other entry is kept. */
  function Serialisable(n: Node): (r: Node)
    requires n.Valid()
    ensures r.Valid()
    ensures r.kind == n.kind && r.content == n.content && r.children == n.children && r.xattrs == n.xattrs
    ensures forall a :: a in Volatile ==> AttrOf(r, a) == None
    ensures forall a :: a !in Volatile ==> AttrOf(r, a) == AttrOf(n, a)
  {
    n.(attrs := StripVolatile(n.attrs))
  }

  /** The copy of the store handed to a content generator: every node with its
      attributes stripped as the serialiser strips them. */
  function Snapshot(s: Store): (r: Store)
    requires ValidStore(s)
    ensures ValidStore(r) && r.keys == s.keys && r.entries.Keys == s.entries.Keys
  {
    var e := map k | k in s.entries :: Serialisable(s.entries[k]);
    assert e.Keys == s.entries.Keys;
    Dict(s.keys, e)
  }

  /** Every node of the snapshot is its original with the volatile attributes
      gone and every other part kept. */
  lemma SnapshotStripsVolatile(s: Store, k: string, a: string)
    requires ValidStore(s) && k in s.entries
    ensures var n := Snapshot(s).entries[k]; var o := s.entries[k];
            n.kind == o.kind && n.content == o.content && n.children == o.children && n.xattrs == o.xattrs
            && AttrOf(n, a) == (if a in Volatile then None else AttrOf(o, a))
  {
  }

  /** Links `name -> path` in a directory's children; `KeyError` when the node
      has no children map. */
  function LinkChild(parent: Node, name: string, path: string): (r: Result<Node, Error>)
    requires parent.Valid()
    ensures r.Err? <==> parent.children.None?
    ensures r.Ok? ==> r.value.Valid() && r.value.children.Some?
    ensures r.Ok? ==> r.value.children.value.Get(name) == Some(path)
    ensures r.Ok? && name in parent.children.value.keys ==> r.value.children.value.keys == parent.children.value.keys
    ensures r.Ok? && name !in parent.children.value.keys ==> r.value.children.value.keys == parent.children.value.keys + [name]
    ensures r.Ok? ==> forall c :: c != name ==> r.value.children.value.Get(c) == parent.children.value.Get(c)
    ensures r.Ok? ==> r.value == parent.(children := r.value.children)
  {
    match parent.children
    case None => Err(KeyError)
    case Some(c) => Ok(parent.(children := Some(c.Put(name, path))))
  }

  /** `children.pop(name)`: `KeyError` when the node has no children map or no such entry. */
  function UnlinkChild(parent: Node, name: string): (r: Result<Node, Error>)
    requires parent.Valid()
    ensures r.Ok? <==> parent.children.Some? && parent.children.value.Has(name)
    ensures r.Ok? ==> r.value.Valid() && r.value.children.Some?
    ensures r.Ok? ==> r.value.children.value.Get(name) == None
    ensures r.Ok? ==> r.value.children.value.keys == Without(parent.children.value.keys, name)
    ensures r.Ok? ==> forall c :: c != name ==> r.value.children.value.Get(c) == parent.children.value.Get(c)
    ensures r.Ok? ==> r.value == parent.(children := r.value.children)
  {
    match parent.children
    case None => Err(KeyError)
    case Some(c) => if c.Has(name) then Ok(parent.(children := Some(c.Remove(name)))) else Err(KeyError)
  }
}
