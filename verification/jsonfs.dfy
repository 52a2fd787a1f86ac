/**
 `JsonFS`: the path-keyed node dictionary with root lookup, normalised lookup
 and the one-level star-pattern match (a directory followed by a final `*`).
 */
module JsonFs {
  import opened Wrappers
  import opened Dicts
  import opened Nodes
  import Paths
  import Text

  /** The root of a fresh filesystem: a directory with no children and no attributes. */
  function RootNode(): (n: Node)
    ensures n.Valid() && n.kind == Directory
    ensures n.children == Some(Empty()) && n.attrs == Empty() && n.xattrs.None?
  {
    Node(Directory, Missing, Some(Empty()), Empty(), None)
  }

  /** `JsonFS()`: exactly one node, the root. */
  function Init(): (s: Store)
    ensures ValidStore(s)
    ensures s.keys == ["/"]
    ensures s.Get("/") == Some(RootNode())
    ensures forall k :: k != "/" ==> s.Get(k) == None
  {
    Dict(["/"], map["/" := RootNode()])
  }

  /** The key `find` reads: the root for "" and "/", the normalised path otherwise. */
  function FindKey(path: string): (k: string)
    ensures path == "" || path == "/" ==> k == "/"
  {
    if path == "" || path == "/" then "/" else Paths.NormPath(path)
  }

  /** `find(path)`; the root lookup raises `KeyError` when the store has no root. */
  function Find(s: Store, path: string): (r: Result<Option<Node>, Error>)
    ensures r.Err? <==> (path == "" || path == "/") && !s.Has("/")
    ensures r == Ok(None) <==> FindKey(path) !in s.entries && !((path == "" || path == "/") && !s.Has("/"))
    ensures r.Ok? && r.value.Some? ==> FindKey(path) in s.entries && r.value.value == s.entries[FindKey(path)]
  {
    if (path == "" || path == "/") && !s.Has("/") then Err(KeyError) else Ok(s.Get(FindKey(path)))
  }

  /** A normalised absolute path is looked up under itself. */
  lemma FindCanonical(s: Store, p: string)
    requires Paths.Canonical(p)
    ensures FindKey(p) == p
    ensures p != "/" ==> Find(s, p) == Ok(s.Get(p))
  {
    if p != "/" {
      Paths.NormPathCanonical(p);
    }
  }

  /** What is stored under a normalised path is found there at once. */
  lemma StoredIsFound(s: Store, p: string, n: Node)
    requires s.Valid() && Paths.Canonical(p)
    ensures Find(s.Put(p, n), p) == Ok(Some(n))
  {
    FindCanonical(s.Put(p, n), p);
  }

  /** The nodes `data[join(base, name)]` for the names of a children map, in order;
      a name whose node is absent raises `KeyError`. */
  function ChildNodes(s: Store, base: string, names: seq<string>): (r: Result<seq<Node>, Error>)
    ensures r.Ok? <==> forall i :: 0 <= i < |names| ==> Paths.Join(base, names[i]) in s.entries
    ensures r.Ok? ==> |r.value| == |names|
    ensures r.Ok? ==> forall i :: 0 <= i < |names| ==> r.value[i] == s.entries[Paths.Join(base, names[i])]
  {
    if |names| == 0 then Ok([])
    else
      var k := Paths.Join(base, names[0]);
      if k !in s.entries then Err(KeyError)
      else
        match ChildNodes(s, base, names[1..])
        case Err(e) => Err(e)
        case Ok(rest) =>
          assert forall i :: 1 <= i < |names| ==> names[i] == names[1..][i - 1];
          Ok([s.entries[k]] + rest)
  }

  /** The directory a pattern ending in a star lists, if the pattern has that shape. */
  function PatternBase(path: string): Option<string>
  {
    var p := Paths.NormPath(path);
    if |p| > 0 && p[|p| - 1] == '*' then Some(Paths.Dirname(p[..|p| - 1])) else None
  }

  /** `findall(path)`: the root for "/", the children of an existing directory
      for a pattern ending in `*`, and nothing otherwise. */
  function FindAll(s: Store, path: string): (r: Result<seq<Node>, Error>)
    ensures path == "/" ==> r == (if s.Has("/") then Ok([s.entries["/"]]) else Err(KeyError))
    ensures path != "/" && PatternBase(path).None? ==> r == Ok([])
    ensures path != "/" && PatternBase(path).Some? ==>
              var b := PatternBase(path).value;
              (b !in s.entries || s.entries[b].kind != Directory ==> r == Ok([]))
    ensures path != "/" && PatternBase(path).Some? && r.Ok? && r.value != [] ==>
              var b := PatternBase(path).value;
              b in s.entries && s.entries[b].children.Some?
              && |r.value| == |s.entries[b].children.value.keys|
  {
    if path == "/" then
      if s.Has("/") then Ok([s.entries["/"]]) else Err(KeyError)
    else
      match PatternBase(path)
      case None => Ok([])
      case Some(b) =>
        if b in s.entries && s.entries[b].kind == Directory then
          match s.entries[b].children
          case None => Err(KeyError)
          case Some(c) => ChildNodes(s, b, c.keys)
        else Ok([])
  }

  /** `findall` of `/d` followed by a final star lists one node per child of the directory `/d`, in
      insertion order, when the children are stored where the links say. */
  lemma FindAllChildren(s: Store, d: string, c: Dict<string, string>)
    requires Paths.Canonical(d) && d != "/"
    requires d in s.entries && s.entries[d].kind == Directory && s.entries[d].children == Some(c)
    requires forall i :: 0 <= i < |c.keys| ==> Paths.Join(d, c.keys[i]) in s.entries
    ensures FindAll(s, d + "/*") == ChildNodes(s, d, c.keys)
    ensures FindAll(s, d + "/*").Ok? && |FindAll(s, d + "/*").value| == |c.keys|
  {
    PatternOfDir(d);
  }

  lemma PatternOfDir(d: string)
    requires Paths.Canonical(d) && d != "/"
    ensures PatternBase(d + "/*") == Some(d)
  {
    var p := d + "/*";
    NormStar(d);
    assert p[..|p| - 1] == d + "/";
    Paths.LastComponentNonEmpty(d);
    Paths.NormPathShape(d);
    DirnameTrailing(d);
  }

  lemma NormStar(d: string)
    requires Paths.Canonical(d) && d != "/"
    ensures Paths.NormPath(d + "/*") == d + "/*"
  {
    Paths.ChildCanonical(d, "*");
    Paths.NormPathCanonical(Paths.Child(d, "*"));
    Paths.LastComponentNonEmpty(d);
    assert Paths.Child(d, "*") == d + "/*";
  }

  lemma DirnameTrailing(d: string)
    requires Paths.Canonical(d) && d != "/"
    ensures Paths.Dirname(d + "/") == d
  {
    Paths.LastComponentNonEmpty(d);
    Paths.NormPathShape(d);
    var h := d + "/";
    assert Paths.RFind(h, '/') == |d|;
    assert h[..|d| + 1] == h;
    assert h[1] == d[1];
    assert !Paths.AllSlashes(h);
    assert h[..|h| - 1] == d;
    assert Paths.RStripSlashes(h) == Paths.RStripSlashes(d);
    assert Paths.RStripSlashes(d) == d;
  }

  /** `FileSystemEncoder.default` on a node: a copy without the volatile attributes. */
  function EncoderDefault(n: Node): (r: Node)
    requires n.Valid()
    ensures r.Valid()
    ensures r.kind == n.kind && r.content == n.content && r.children == n.children && r.xattrs == n.xattrs
    ensures forall a :: a in Volatile ==> AttrOf(r, a) == None
    ensures forall a :: a !in Volatile ==> AttrOf(r, a) == AttrOf(n, a)
  {
    Serialisable(n)
  }
}
