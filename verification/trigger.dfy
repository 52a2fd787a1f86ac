/**
 The generation trigger of `_get_size`, shared by both filesystems: the size
 of a node, and the content generation a size query may set off. A file is a
 candidate when its `generator` or `generate_content` extended attribute is
 set; it is regenerated when its path lies under the reserved prefix, or when
 it carries `generate_content` and is empty or recorded as size 0. The
 generator is a parameter: a function from the node's path to the content it
 produced or the exception it raised.
 */
module Trigger {
  import opened Wrappers
  import opened Dicts
  import opened Nodes
  import Text
  import Numerals
  import Utf8
  import StoreOps

  const GenerateContent := "generate_content"
  const GeneratorKey := "generator"

  /** A file whose size query may generate its content. */
  predicate Marked(n: Node)
  {
    n.kind == File && (XattrTruthy(n, GeneratorKey) || XattrTruthy(n, GenerateContent))
  }

  /** `int(node["attrs"].get("st_size", "0"))`; `None` is a `ValueError`. */
  function RecordedSize(n: Node): (r: Option<int>)
    ensures AttrOf(n, "st_size").None? ==> r == Numerals.ParseInt("0")
    ensures AttrOf(n, "st_size").Some? ==> r == Numerals.ParseInt(AttrOf(n, "st_size").value)
  {
    Numerals.ParseInt(match AttrOf(n, "st_size") case Some(v) => v case None => "0")
  }

  /** Whether a marked node found under `p` is regenerated: always under the
      reserved prefix, otherwise only when it carries `generate_content` and is
      empty or recorded as size 0. */
  predicate Due(p: string, n: Node, size: int, prefix: string)
  {
    Text.StartsWith(p, prefix) || (XattrTruthy(n, GenerateContent) && (!Truthy(n.content) || size == 0))
  }

  /** The node without its `generate_content` marker; an xattrs map the removal
      empties is dropped altogether. */
  function Unmarked(n: Node): (r: Node)
    requires n.Valid()
    ensures r.Valid()
    ensures r.kind == n.kind && r.content == n.content && r.children == n.children && r.attrs == n.attrs
    ensures XattrOf(r, GenerateContent).None?
    ensures forall x :: x != GenerateContent ==> XattrOf(r, x) == XattrOf(n, x)
    ensures r.xattrs.Some? ==> |r.xattrs.value.keys| > 0 || r == n
    ensures XattrOf(n, GenerateContent).None? ==> r == n
  {
    match n.xattrs
    case None => n
    case Some(x) =>
      if !x.Has(GenerateContent) then n
      else
        var y := x.Remove(GenerateContent);
        if |y.keys| == 0 then
          assert forall c :: c != GenerateContent ==> x.Get(c) == y.Get(c);
          assert forall c :: y.Get(c) == None by {
            forall c ensures y.Get(c) == None {
              assert c in y.entries <==> c in y.keys;
            }
          }
          n.(xattrs := None)
        else n.(xattrs := Some(y))
  }

  /** The node after a successful generation under `p`: the new content, and
      the marker dropped unless `p` is under the reserved prefix. */
  function Filled(n: Node, b: Body, p: string, prefix: string): (r: Node)
    requires n.Valid()
    ensures r.Valid() && r.kind == n.kind && r.content == b && r.attrs == n.attrs && r.children == n.children
    ensures Text.StartsWith(p, prefix) ==> r.xattrs == n.xattrs
    ensures !Text.StartsWith(p, prefix) ==> XattrOf(r, GenerateContent).None?
    ensures forall x :: x != GenerateContent ==> XattrOf(r, x) == XattrOf(n, x)
  {
    var c := n.(content := b);
    if Text.StartsWith(p, prefix) then c else Unmarked(c)
  }

  /** The size a node reports: characters for a symlink, UTF-8 bytes for text
      in a file; raw bytes count as they are when `binary` holds and raise
      otherwise. Content that cannot be measured raises. */
  function SizeOf(n: Node, binary: bool): (r: Result<nat, Error>)
    requires n.kind != Directory
    ensures n.kind == Symlink ==> r == CharLen(ContentOr(n.content))
    ensures n.kind == File && n.content.Text? ==> r == Ok(Utf8.Len(n.content.text))
    ensures n.kind == File && n.content.Missing? ==> r == Ok(0)
    ensures n.kind == File && n.content.Bytes? ==> r == (if binary then Ok(|n.content.bytes|) else Err(AttributeError))
    ensures n.kind == File && n.content.Null? ==> r.Err?
  {
    if n.kind == Symlink then CharLen(ContentOr(n.content))
    else if binary && n.content.Bytes? then Ok(|n.content.bytes|)
    else EncodedLen(n.content)
  }

  /** The size reported after a failed generation: the existing content's UTF-8
      size when it is non-empty, else 0. */
  function ExistingSize(b: Body): (r: Result<nat, Error>)
    ensures !Truthy(b) ==> r == Ok(0)
    ensures b.Text? ==> r == Ok(Utf8.Len(b.text))
    ensures Truthy(b) && b.Bytes? ==> r == Err(AttributeError)
  {
    if !Truthy(b) then Ok(0)
    else match b
      case Text(t) => Ok(Utf8.Len(t))
      case _ => Err(AttributeError)
  }

  /** `_get_size(node)` for the node stored under `k`. `produce(p)` is what the
      generator returns for the path `p` the node is found under (the first key
      holding an equal node). A successful generation stores the same new node
      under `k` and `p`; nothing else in the store changes. */
  function GetSize(s: Store, k: string, prefix: string, binary: bool,
                   produce: string -> Result<Body, Error>): (r: StoreOps.Step<nat>)
    requires ValidStore(s) && k in s.entries
    ensures ValidStore(r.store) && r.store.keys == s.keys
    ensures forall j :: j in s.entries && s.entries[j] != s.entries[k] ==> r.store.Get(j) == s.Get(j)
    ensures s.entries[k].kind == Directory ==> r == StoreOps.Step(s, Ok(0))
    ensures !Marked(s.entries[k]) && s.entries[k].kind != Directory ==>
              var n := s.entries[k];
              if n.kind == File && (n.content.Missing? || n.content.Null?) then
                r == StoreOps.Step(s.Put(k, n.(content := Text(""))), Ok(0))
              else r == StoreOps.Step(s, SizeOf(n, binary))
    ensures Marked(s.entries[k]) ==> r == Attempt(s, k, prefix, binary, produce)
  {
    var n := s.entries[k];
    if n.kind == Directory then StoreOps.Step(s, Ok(0))
    else if Marked(n) then Attempt(s, k, prefix, binary, produce)
    else if n.kind == File && (n.content.Missing? || n.content.Null?) then
      var n2 := n.(content := Text(""));
      PutValid(s, k, n2);
      StoreOps.Step(s.Put(k, n2), Ok(0))
    else StoreOps.Step(s, SizeOf(n, binary))
  }

  /** The generation branch of `_get_size`, for a marked file. Parsing the
      recorded size, finding the node's path and generating may each raise;
      every exception leaves the store alone and reports the existing size. */
  function Attempt(s: Store, k: string, prefix: string, binary: bool,
                   produce: string -> Result<Body, Error>): (r: StoreOps.Step<nat>)
    requires ValidStore(s) && k in s.entries && Marked(s.entries[k])
    ensures ValidStore(r.store) && r.store.keys == s.keys
    ensures forall j :: j in s.entries && s.entries[j] != s.entries[k] ==> r.store.Get(j) == s.Get(j)
  {
    var n := s.entries[k];
    var p := PathOf(s, k);
    match RecordedSize(n)
    case None => StoreOps.Step(s, ExistingSize(n.content))
    case Some(size) =>
      if !Due(p, n, size, prefix) then StoreOps.Step(s, SizeOf(n, binary))
      else
        match produce(p)
        case Err(_) => StoreOps.Step(s, ExistingSize(n.content))
        case Ok(b) =>
          if !Truthy(b) then StoreOps.Step(s, SizeOf(n, binary))
          else Regenerated(s, k, b, prefix, binary)
  }

  /** A successful generation of `b` for the node under `k`: the filled node is
      stored under `k` and under the node's path, and its size is reported. */
  function Regenerated(s: Store, k: string, b: Body, prefix: string, binary: bool): (r: StoreOps.Step<nat>)
    requires ValidStore(s) && k in s.entries && s.entries[k].kind == File
    ensures ValidStore(r.store) && r.store.keys == s.keys
    ensures forall j :: j in s.entries && s.entries[j] != s.entries[k] ==> r.store.Get(j) == s.Get(j)
  {
    var p := PathOf(s, k);
    var n2 := Filled(s.entries[k], b, p, prefix);
    Stored(s, k, p, n2);
    StoreOps.Step(s.Put(k, n2).Put(p, n2), SizeOf(n2, binary))
  }

  /** Storing one node under two existing keys keeps the store valid, its keys,
      and every other entry. */
  lemma Stored(s: Store, k: string, p: string, n2: Node)
    requires ValidStore(s) && k in s.entries && p in s.entries && n2.Valid()
    ensures var t := s.Put(k, n2).Put(p, n2);
            && ValidStore(t) && t.keys == s.keys
            && t.Get(k) == Some(n2) && t.Get(p) == Some(n2)
            && forall j :: j != k && j != p ==> t.Get(j) == s.Get(j)
  {
    PutValid(s, k, n2);
    PutValid(s.Put(k, n2), p, n2);
  }

  /** The first key holding a node, for a node stored under `k`. */
  function PathOf(s: Store, k: string): (p: string)
    requires ValidStore(s) && k in s.entries
    ensures p in s.entries && s.entries[p] == s.entries[k]
  {
    FirstKeyOf(s, s.entries[k]).value
  }

  /** The recorded size of the node under `k` parses and its generation is due. */
  predicate DueAt(s: Store, k: string, prefix: string)
    requires ValidStore(s) && k in s.entries
  {
    var n := s.entries[k];
    RecordedSize(n).Some? && Due(PathOf(s, k), n, RecordedSize(n).value, prefix)
  }

  /** A file with content and a non-zero recorded size, none of whose keys is
      under the reserved prefix, is never regenerated: the generator is not
      consulted and the store is left as it is. */
  lemma SettledNotRegenerated(s: Store, k: string, prefix: string, binary: bool,
                              produce: string -> Result<Body, Error>)
    requires ValidStore(s) && k in s.entries && s.entries[k].kind == File
    requires Truthy(s.entries[k].content)
    requires RecordedSize(s.entries[k]).Some? && RecordedSize(s.entries[k]).value != 0
    requires forall j :: j in s.entries && s.entries[j] == s.entries[k] ==> !Text.StartsWith(j, prefix)
    ensures GetSize(s, k, prefix, binary, produce) == StoreOps.Step(s, SizeOf(s.entries[k], binary))
  {
    var n := s.entries[k];
    var p := PathOf(s, k);
    assert !Text.StartsWith(p, prefix);
    assert !Due(p, n, RecordedSize(n).value, prefix);
    if Marked(n) {
      assert Attempt(s, k, prefix, binary, produce) == StoreOps.Step(s, SizeOf(n, binary));
    }
  }

  /** A due generation that yields content stores the filled node under both
      the queried key and the node's path, and reports the new content's size. */
  lemma GenerationStores(s: Store, k: string, prefix: string, binary: bool,
                         produce: string -> Result<Body, Error>)
    requires ValidStore(s) && k in s.entries && Marked(s.entries[k])
    requires DueAt(s, k, prefix)
    requires produce(PathOf(s, k)).Ok? && Truthy(produce(PathOf(s, k)).value)
    ensures var p := PathOf(s, k);
            var n2 := Filled(s.entries[k], produce(p).value, p, prefix);
            var r := GetSize(s, k, prefix, binary, produce);
            && r.store.Get(k) == Some(n2) && r.store.Get(p) == Some(n2)
            && n2.content == produce(p).value
            && (Text.StartsWith(p, prefix) <==> XattrOf(n2, GenerateContent) == XattrOf(s.entries[k], GenerateContent))
            && r.result == SizeOf(n2, binary)
  {
    var p := PathOf(s, k);
    var n2 := Filled(s.entries[k], produce(p).value, p, prefix);
    Stored(s, k, p, n2);
    assert XattrTruthy(s.entries[k], GenerateContent) || !Text.StartsWith(p, prefix) ==> true;
    if !Text.StartsWith(p, prefix) {
      MarkerOnDueUnprefixed(s.entries[k], p, RecordedSize(s.entries[k]).value, prefix);
    }
  }

  /** Off the reserved prefix a due node carries the `generate_content` marker. */
  lemma MarkerOnDueUnprefixed(n: Node, p: string, size: int, prefix: string)
    requires Due(p, n, size, prefix) && !Text.StartsWith(p, prefix)
    ensures XattrOf(n, GenerateContent).Some?
  {
  }

  /** A generation that raises changes nothing, so the marker stays and a later
      size query tries again; the size reported is that of the existing content. */
  lemma FailureKeepsNode(s: Store, k: string, prefix: string, binary: bool,
                         produce: string -> Result<Body, Error>)
    requires ValidStore(s) && k in s.entries && Marked(s.entries[k])
    requires RecordedSize(s.entries[k]).None? || produce(PathOf(s, k)).Err?
    requires RecordedSize(s.entries[k]).Some? ==>
               Due(PathOf(s, k), s.entries[k], RecordedSize(s.entries[k]).value, prefix)
    ensures GetSize(s, k, prefix, binary, produce) == StoreOps.Step(s, ExistingSize(s.entries[k].content))
  {
  }

  /** An empty or missing result from the generator leaves the node unchanged. */
  lemma EmptyResultKeepsNode(s: Store, k: string, prefix: string, binary: bool,
                             produce: string -> Result<Body, Error>)
    requires ValidStore(s) && k in s.entries && Marked(s.entries[k])
    requires RecordedSize(s.entries[k]).Some?
    requires produce(PathOf(s, k)).Ok? && !Truthy(produce(PathOf(s, k)).value)
    ensures GetSize(s, k, prefix, binary, produce).store == s
  {
  }

  /** Content is generated once off the reserved prefix: after a generation for a
      node without a `generator` attribute, the next size query changes nothing
      and consults no generator. */
  lemma GeneratesOnce(s: Store, k: string, prefix: string, binary: bool,
                      produce: string -> Result<Body, Error>, again: string -> Result<Body, Error>)
    requires ValidStore(s) && k in s.entries && Marked(s.entries[k])
    requires !XattrTruthy(s.entries[k], GeneratorKey)
    requires DueAt(s, k, prefix) && !Text.StartsWith(PathOf(s, k), prefix)
    requires produce(PathOf(s, k)).Ok? && Truthy(produce(PathOf(s, k)).value)
    ensures var r := GetSize(s, k, prefix, binary, produce);
            k in r.store.entries && GetSize(r.store, k, prefix, binary, again) == StoreOps.Step(r.store, SizeOf(r.store.entries[k], binary))
  {
    var n := s.entries[k];
    var p := PathOf(s, k);
    var n2 := Filled(n, produce(p).value, p, prefix);
    var r := GetSize(s, k, prefix, binary, produce);
    assert r.store.Get(k) == Some(n2) by {
      GenerationStores(s, k, prefix, binary, produce);
    }
    assert !Marked(n2) by {
      assert XattrOf(n2, GenerateContent).None?;
      assert XattrOf(n2, GeneratorKey) == XattrOf(n, GeneratorKey);
    }
    UnmarkedFilled(r.store, k, prefix, binary, again);
  }

  /** An unmarked file with content is measured as it is. */
  lemma UnmarkedFilled(s: Store, k: string, prefix: string, binary: bool,
                       produce: string -> Result<Body, Error>)
    requires ValidStore(s) && k in s.entries && s.entries[k].kind == File
    requires !Marked(s.entries[k]) && Truthy(s.entries[k].content)
    ensures GetSize(s, k, prefix, binary, produce) == StoreOps.Step(s, SizeOf(s.entries[k], binary))
  {
  }
}
