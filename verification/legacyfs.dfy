/**
 The single-class `Memory` filesystem: its start-up state, `getattr` with the
 recomputed size, and the content operations `read`, `write`, `truncate`,
 `create` and `open`. Directory, link, attribute and rename operations are
 the shared ones of `StoreOps`.

 The class hands out descriptors from a counter and keeps the JSON text of the
 store for `/fs.json`; that text is produced by a serialiser given as a
 parameter (`dump`), and content generation by a parameter `generate`.
 */
module LegacyFs {
  import opened Wrappers
  import opened Dicts
  import opened Nodes
  import opened StoreOps
  import JsonFs
  import Text
  import Utf8
  import Numerals
  import Bits
  import Paths

  /** The file that shows the serialised store. */
  const FsJson: string := "/fs.json"

  /** The state of the class: its store and the last descriptor handed out. */
  datatype Memory = Memory(store: Store, fd: nat)

  datatype Outcome<T> = Outcome(fs: Memory, result: Result<T, Error>)

  /** `str(kind | perm)`, the way the code writes a mode attribute. */
  function ModeText(kind: int, perm: int): string
  {
    Numerals.IntToString(Bits.BitOr(kind, perm))
  }

  /** The default modes read back as the literals a generated filesystem uses,
      16877 (`0o40755`) and 33188 (`0o100644`). */
  lemma DefaultModes()
    ensures Numerals.ParseInt(ModeText(Bits.S_IFDIR, 0x1ED)) == Some(16877)
    ensures Numerals.ParseInt(ModeText(Bits.S_IFREG, 0x1A4)) == Some(33188)
  {
    Bits.TypeOrPermission(0x1ED);
    Bits.TypeOrPermission(0x1A4);
    Numerals.ParsePrinted(16877);
    Numerals.ParsePrinted(33188);
  }

  /** The store of an empty start before the JSON text is put into `/fs.json`:
      the root with mode `S_IFDIR | 0o755` and an empty `/fs.json` with mode
      `S_IFREG | 0o644`, not yet linked in the root. */
  function Seed(): (s: Store)
    ensures ValidStore(s) && s.keys == ["/", FsJson]
    ensures s.Get("/") == Some(RootOf(Empty()))
    ensures s.Get(FsJson) == Some(FsJsonOf(""))
  {
    PutValid(Empty(), "/", RootOf(Empty()));
    var s1 := Empty<string, Node>().Put("/", RootOf(Empty()));
    PutValid(s1, FsJson, FsJsonOf(""));
    s1.Put(FsJson, FsJsonOf(""))
  }

  /** The root of an empty start, with the given children. */
  function RootOf(children: Dict<string, string>): (n: Node)
    requires children.Valid()
    ensures n.Valid() && n.kind == Directory && n.children == Some(children)
    ensures AttrOf(n, "st_mode") == Some(ModeText(Bits.S_IFDIR, 0x1ED))
  {
    Node(Directory, Missing, Some(children), Empty<string, string>().Put("st_mode", ModeText(Bits.S_IFDIR, 0x1ED)), None)
  }

  /** `/fs.json` holding the given text. */
  function FsJsonOf(text: string): (n: Node)
    ensures n.Valid() && n.kind == File && n.content == Text(text) && n.children.None?
    ensures AttrOf(n, "st_mode") == Some(ModeText(Bits.S_IFREG, 0x1A4))
  {
    Node(File, Text(text), None, Empty<string, string>().Put("st_mode", ModeText(Bits.S_IFREG, 0x1A4)), None)
  }

  /** The root's children after an empty start: `fs.json` alone. */
  function FsJsonLink(): (d: Dict<string, string>)
    ensures d.Valid() && d.keys == ["fs.json"] && d.Get("fs.json") == Some(FsJson)
  {
    Empty<string, string>().Put("fs.json", FsJson)
  }

  /** `Memory(initial_data)`: a non-empty store is used as it is; otherwise the
      root and `/fs.json` are created, the file holding the serialised seed
      store and listed in the root. */
  function Init(initial: Store, dump: Store -> string): (m: Memory)
    requires ValidStore(initial)
    ensures ValidStore(m.store) && m.fd == 0
    ensures |initial.keys| > 0 ==> m.store == initial
    ensures |initial.keys| == 0 ==>
              && m.store.keys == ["/", FsJson]
              && m.store.Get("/") == Some(RootOf(FsJsonLink()))
              && m.store.Get(FsJson) == Some(FsJsonOf(dump(Seed())))
  {
    if |initial.keys| > 0 then Memory(initial, 0)
    else
      var seed := Seed();
      PutValid(seed, FsJson, FsJsonOf(dump(seed)));
      var s1 := seed.Put(FsJson, FsJsonOf(dump(seed)));
      PutValid(s1, "/", RootOf(FsJsonLink()));
      Memory(s1.Put("/", RootOf(FsJsonLink())), 0)
  }

  /** An empty start lists `fs.json` in the root and nothing else. */
  lemma InitListsFsJson(dump: Store -> string)
    ensures Readdir(Init(Empty(), dump).store, "/") == Ok([".", "..", "fs.json"])
  {
    var s := Init(Empty(), dump).store;
    InitRoot(dump);
    ReaddirRoot(s, FsJsonLink());
    ListingLiteral();
  }

  lemma InitRoot(dump: Store -> string)
    ensures Init(Empty(), dump).store.Get("/") == Some(RootOf(FsJsonLink()))
  {
  }

  lemma ListingLiteral()
    ensures [".", ".."] + FsJsonLink().keys == [".", "..", "fs.json"]
  {
  }

  lemma ReaddirRoot(s: Store, c: Dict<string, string>)
    requires c.Valid() && s.Get("/") == Some(RootOf(c))
    ensures Readdir(s, "/") == Ok([".", ".."] + c.keys)
  {
    assert JsonFs.Find(s, "/") == Ok(Some(RootOf(c)));
  }

  /** `_get_size`: nothing for a directory, characters for a symlink, UTF-8
      bytes for a file; content Python cannot measure that way raises. */
  function PlainSize(n: Node): (r: Result<nat, Error>)
    ensures n.kind == Directory ==> r == Ok(0)
    ensures n.kind != Directory && n.content.Missing? ==> r == Ok(0)
    ensures n.kind == Symlink && n.content.Text? ==> r == Ok(|n.content.text|)
    ensures n.kind == File && n.content.Text? ==> r == Ok(Utf8.Len(n.content.text))
    ensures n.kind != Directory && n.content.Null? ==> r.Err?
  {
    match n.kind
    case Directory => Ok(0)
    case Symlink => CharLen(n.content)
    case File => EncodedLen(n.content)
  }

  /** `int(value)` of an attribute that `getattr` keeps: its name starts with
      `st_` and its value parses as an integer. */
  function IntAttr(attrs: Dict<string, string>, a: string): (r: Option<int>)
    ensures r.Some? ==> Text.StartsWith(a, "st_") && a in attrs.entries
  {
    if Text.StartsWith(a, "st_") && a in attrs.entries then Numerals.ParseInt(attrs.entries[a]) else None
  }

  const TimeAttrs: seq<string> := ["st_ctime", "st_mtime", "st_atime"]

  /** `_get_nlink`. */
  function Nlink(k: Kind): int
  {
    if k == Directory then 2 else 1
  }

  /** What `getattr` reports for the attribute `a` of a node of size `size`
      at time `now`: the recomputed size, else a stored integer, else the
      default time or link count, else nothing. */
  function Reported(n: Node, a: string, now: int, size: nat): Option<int>
  {
    if a == "st_size" then Some(size)
    else if IntAttr(n.attrs, a).Some? then IntAttr(n.attrs, a)
    else if a in TimeAttrs then Some(now)
    else if a == "st_nlink" then Some(Nlink(n.kind))
    else None
  }

  /** The loop over the stored attributes, keeping those `IntAttr` accepts, in order. */
  function CollectInts(attrs: Dict<string, string>, ks: seq<string>): (r: Dict<string, int>)
    ensures r.Valid()
    ensures forall a :: r.Get(a) == (if a in ks then IntAttr(attrs, a) else None)
    decreases |ks|
  {
    if |ks| == 0 then Empty()
    else
      var r := CollectInts(attrs, ks[..|ks| - 1]);
      var a := ks[|ks| - 1];
      assert forall b :: b in ks <==> b in ks[..|ks| - 1] || b == a;
      match IntAttr(attrs, a)
      case Some(v) => r.Put(a, v)
      case None => r
  }

  /** Sets `a` to `v` unless an entry is already there. */
  function Default(d: Dict<string, int>, a: string, v: int): (r: Dict<string, int>)
    requires d.Valid()
    ensures r.Valid()
    ensures r.Get(a) == (if d.Has(a) then d.Get(a) else Some(v))
    ensures forall b :: b != a ==> r.Get(b) == d.Get(b)
  {
    if d.Has(a) then d else d.Put(a, v)
  }

  /** The stored integers with the three times defaulted to `now`. */
  function Timed(n: Node, now: int): (r: Dict<string, int>)
    requires n.attrs.Valid()
    ensures r.Valid()
    ensures forall a :: r.Get(a) == if IntAttr(n.attrs, a).Some? then IntAttr(n.attrs, a)
                                    else if a in TimeAttrs then Some(now) else None
  {
    var kept := CollectInts(n.attrs, n.attrs.keys);
    assert forall a :: kept.Get(a) == IntAttr(n.attrs, a);
    var c := Default(kept, "st_ctime", now);
    var m := Default(c, "st_mtime", now);
    Default(m, "st_atime", now)
  }

  lemma StatNames()
    ensures "st_nlink" !in TimeAttrs && "st_size" !in TimeAttrs && "st_size" != "st_nlink"
  {
    assert "st_nlink"[3] == 'n' && "st_size"[3] == 's';
    assert forall i :: 0 <= i < |TimeAttrs| ==> TimeAttrs[i][3] in {'c', 'm', 'a'};
  }

  /** The attributes `getattr` builds for a node of size `size`: the stored
      integers, then the default times and link count, then the size. */
  function Stat(n: Node, now: int, size: nat): (r: Dict<string, int>)
    requires n.attrs.Valid()
    ensures r.Valid()
  {
    Default(Timed(n, now), "st_nlink", Nlink(n.kind)).Put("st_size", size)
  }

  /** Each attribute of `Stat` is the one `Reported` describes. */
  lemma StatAt(n: Node, now: int, size: nat, a: string)
    requires n.attrs.Valid()
    ensures Stat(n, now, size).Get(a) == Reported(n, a, now, size)
  {
    if a == "st_size" {
    } else if a == "st_nlink" {
      StatNlink(n, now, size);
    } else {
      StatOther(n, now, size, a);
    }
  }

  lemma StatNlink(n: Node, now: int, size: nat)
    requires n.attrs.Valid()
    ensures Stat(n, now, size).Get("st_nlink") == Reported(n, "st_nlink", now, size)
  {
    StatNames();
  }

  lemma StatOther(n: Node, now: int, size: nat, a: string)
    requires n.attrs.Valid() && a != "st_size" && a != "st_nlink"
    ensures Stat(n, now, size).Get(a) == Reported(n, a, now, size)
  {
    var t := Timed(n, now);
    assert Stat(n, now, size).Get(a) == t.Get(a) by {
      var d := Default(t, "st_nlink", Nlink(n.kind));
      assert d.Get(a) == t.Get(a);
      assert Stat(n, now, size) == d.Put("st_size", size);
    }
    ReportedOther(n, a, now, size);
  }

  lemma ReportedOther(n: Node, a: string, now: int, size: nat)
    requires a != "st_size" && a != "st_nlink"
    ensures Reported(n, a, now, size) == if IntAttr(n.attrs, a).Some? then IntAttr(n.attrs, a)
                                         else if a in TimeAttrs then Some(now) else None
  {
  }

  /** `getattr(path)`: ENOENT for a missing node; otherwise the reported
      attributes, `st_size` always recomputed. `/fs.json` is looked up like any
      other path: re-serialising the store changes no node. */
  function Getattr(s: Store, path: string, now: int): (r: Result<Dict<string, int>, Error>)
    requires ValidStore(s)
    ensures JsonFs.Find(s, path).Err? ==> r == Err(JsonFs.Find(s, path).error)
    ensures JsonFs.Find(s, path) == Ok(None) ==> r == Err(NoEntry)
    ensures JsonFs.Find(s, path).Ok? && JsonFs.Find(s, path).value.Some? ==>
              var n := JsonFs.Find(s, path).value.value;
              && n.Valid()
              && (r.Ok? <==> PlainSize(n).Ok?)
              && (r.Ok? ==> r.value == Stat(n, now, PlainSize(n).value))
  {
    match JsonFs.Find(s, path)
    case Err(e) => Err(e)
    case Ok(None) => Err(NoEntry)
    case Ok(Some(n)) =>
      assert n.Valid();
      match PlainSize(n)
      case Err(e) => Err(e)
      case Ok(size) => Ok(Stat(n, now, size))
  }

  /** Every attribute `getattr` reports is an `st_` one. */
  lemma GetattrOnlyStat(s: Store, path: string, now: int, a: string)
    requires ValidStore(s)
    requires Getattr(s, path, now).Ok? && Getattr(s, path, now).value.Get(a).Some?
    ensures Text.StartsWith(a, "st_")
  {
    var n := JsonFs.Find(s, path).value.value;
    StatAt(n, now, PlainSize(n).value, a);
    ReportedStat(n, a, now, PlainSize(n).value);
  }

  lemma ReportedStat(n: Node, a: string, now: int, size: nat)
    ensures Reported(n, a, now, size).Some? ==> Text.StartsWith(a, "st_")
  {
    if a == "st_size" {
      assert a[..3] == "st_";
    } else if IntAttr(n.attrs, a).Some? {
    } else if a in TimeAttrs {
      assert forall i :: 0 <= i < |TimeAttrs| ==> TimeAttrs[i][..3] == "st_";
    } else if a == "st_nlink" {
      assert a[..3] == "st_";
    }
  }

  /** The node after `read` tried to fill a content-less file: the generated
      text with its byte size recorded, or empty text when generation failed. */
  function Filled(n: Node, g: Result<string, Error>): (r: Node)
    requires n.Valid()
    ensures r.Valid() && r.kind == n.kind && r.children == n.children && r.xattrs == n.xattrs
    ensures g.Ok? ==> r.content == Text(g.value) && AttrOf(r, "st_size") == Some(Numerals.IntToString(Utf8.Len(g.value)))
    ensures g.Err? ==> r == n.(content := Text(""))
    ensures forall a :: a != "st_size" ==> AttrOf(r, a) == AttrOf(n, a)
  {
    match g
    case Ok(t) => WithAttr(n.(content := Text(t)), "st_size", Numerals.IntToString(Utf8.Len(t)))
    case Err(_) => n.(content := Text(""))
  }

  /** The encoded slice `read` returns from stored content. */
  function SliceOf(b: Body, size: nat, offset: nat): (r: Result<seq<Utf8.byte>, Error>)
    ensures r.Ok? <==> b.Text? || b.Missing?
    ensures b.Text? ==> r == Ok(Utf8.Encode(Text.Slice(b.text, offset, offset + size)))
    ensures b.Missing? ==> r == Ok([])
  {
    match ContentOr(b)
    case Text(t) => Ok(Utf8.Encode(Text.Slice(t, offset, offset + size)))
    case Null => Err(TypeError)
    case _ => Err(AttributeError)
  }

  /** `read(path, size, offset)`. `/fs.json` reads the serialised store. A file
      without content is first filled by `generate(path, store)`, empty text on
      failure. The result is the UTF-8 encoding of `content[offset:offset+size]`;
      a missing node reads as empty. */
  function Read(s: Store, path: string, size: nat, offset: nat,
                generate: (string, Store) -> Result<string, Error>, dump: Store -> string): (r: Step<seq<Utf8.byte>>)
    requires ValidStore(s)
    ensures ValidStore(r.store)
    ensures path == FsJson ==> r == Step(s, Ok(Utf8.Encode(Text.Slice(dump(s), offset, offset + size))))
    ensures path != FsJson && JsonFs.Find(s, path).Err? ==> r == Step(s, Err(JsonFs.Find(s, path).error))
    ensures path != FsJson && JsonFs.Find(s, path) == Ok(None) ==> r == Step(s, Ok([]))
    ensures path != FsJson && JsonFs.Find(s, path).Ok? && JsonFs.Find(s, path).value.Some? ==>
              var n := JsonFs.Find(s, path).value.value;
              var k := JsonFs.FindKey(path);
              if n.kind == File && (n.content.Missing? || n.content.Null?) then
                var f := Filled(n, generate(path, s));
                r == Step(s.Put(k, f), SliceOf(f.content, size, offset))
              else r == Step(s, SliceOf(n.content, size, offset))
  {
    if path == FsJson then Step(s, Ok(Utf8.Encode(Text.Slice(dump(s), offset, offset + size))))
    else
      match JsonFs.Find(s, path)
      case Err(e) => Step(s, Err(e))
      case Ok(None) => Step(s, Ok([]))
      case Ok(Some(n)) =>
        var k := JsonFs.FindKey(path);
        if n.kind == File && (n.content.Missing? || n.content.Null?) then
          var f := Filled(n, generate(path, s));
          PutValid(s, k, f);
          Step(s.Put(k, f), SliceOf(f.content, size, offset))
        else Step(s, SliceOf(n.content, size, offset))
  }

  /** `read` as the class performs it: `generate_file_content` is handed the
      JSON text of the store where it expects the structure dictionary, and its
      first lookup on that text raises, so every attempt fails. */
  function ReadAsWritten(s: Store, path: string, size: nat, offset: nat, dump: Store -> string): (r: Step<seq<Utf8.byte>>)
    requires ValidStore(s)
    ensures ValidStore(r.store)
    ensures r == Read(s, path, size, offset, (p: string, st: Store) => Err(AttributeError), dump)
  {
    Read(s, path, size, offset, (p: string, st: Store) => Err(AttributeError), dump)
  }

  /** As written, a file without content is blanked and reads as empty, whatever
      the generator would have produced. */
  lemma ReadAsWrittenBlanks(s: Store, p: string, size: nat, offset: nat, dump: Store -> string)
    requires ValidStore(s) && Paths.Canonical(p) && p != FsJson && p != "/"
    requires p in s.entries && s.entries[p].kind == File && s.entries[p].content == Null
    ensures ReadAsWritten(s, p, size, offset, dump) == Step(s.Put(p, s.entries[p].(content := Text(""))), Ok([]))
  {
    JsonFs.FindCanonical(s, p);
  }

  /** With a working generator, the first read of a content-less file returns
      the generated text and records its size. */
  lemma ReadGenerates(s: Store, p: string, size: nat, offset: nat,
                      generate: (string, Store) -> Result<string, Error>, dump: Store -> string, t: string)
    requires ValidStore(s) && Paths.Canonical(p) && p != FsJson && p != "/"
    requires p in s.entries && s.entries[p].kind == File && s.entries[p].content == Null
    requires generate(p, s) == Ok(t)
    ensures var r := Read(s, p, size, offset, generate, dump);
            && r.result == Ok(Utf8.Encode(Text.Slice(t, offset, offset + size)))
            && r.store.Get(p).Some? && r.store.Get(p).value.content == Text(t)
            && Numerals.ParseInt(AttrOf(r.store.Get(p).value, "st_size").value) == Some(Utf8.Len(t) as int)
  {
    JsonFs.FindCanonical(s, p);
    Numerals.ParsePrinted(Utf8.Len(t));
  }

  /** Content is generated once: a second read leaves the store as the first one left it. */
  lemma ReadGeneratesOnce(s: Store, p: string, size: nat, offset: nat, size2: nat, offset2: nat,
                          generate: (string, Store) -> Result<string, Error>, dump: Store -> string)
    requires ValidStore(s) && Paths.Canonical(p) && p != FsJson && p != "/"
    requires p in s.entries && s.entries[p].kind == File
    ensures var r := Read(s, p, size, offset, generate, dump);
            Read(r.store, p, size2, offset2, generate, dump).store == r.store
  {
    JsonFs.FindCanonical(s, p);
    var r := Read(s, p, size, offset, generate, dump);
    JsonFs.FindCanonical(r.store, p);
    assert r.store.Get(p).Some? && r.store.Get(p).value.kind == File;
    assert !(r.store.Get(p).value.content.Missing? || r.store.Get(p).value.content.Null?);
  }

  /** The text `write` stores: the old text padded with spaces up to `offset`,
      cut at `offset`, then the written text. */
  function Spliced(prev: string, offset: nat, data: string): (r: string)
    ensures |r| == offset + |data|
    ensures offset <= |prev| ==> r[..offset] == prev[..offset]
    ensures offset > |prev| ==> r[..|prev|] == prev && forall i :: |prev| <= i < offset ==> r[i] == ' '
    ensures r[offset..] == data
  {
    Text.Take(Text.LJust(prev, offset, ' '), offset) + data
  }

  /** The node `write` leaves, with the decoded text it wrote: the data must be
      UTF-8 and the stored content text; `st_size` records the new byte size. */
  function WriteNode(n: Node, data: seq<Utf8.byte>, offset: nat): (r: Result<(Node, string), Error>)
    requires n.Valid()
    ensures Utf8.Decode(data).None? ==> r == Err(DecodeError)
    ensures r.Ok? <==> Utf8.Decode(data).Some? && (n.content.Text? || n.content.Missing?)
    ensures r.Ok? ==>
              var t := if n.content.Text? then n.content.text else "";
              var c := Spliced(t, offset, Utf8.Decode(data).value);
              && r.value.1 == Utf8.Decode(data).value
              && r.value.0.Valid()
              && r.value.0 == WithAttr(n.(content := Text(c)), "st_size", Numerals.IntToString(Utf8.Len(c)))
  {
    match Utf8.Decode(data)
    case None => Err(DecodeError)
    case Some(d) =>
      match ContentOr(n.content)
      case Text(t) =>
        var c := Spliced(t, offset, d);
        Ok((WithAttr(n.(content := Text(c)), "st_size", Numerals.IntToString(Utf8.Len(c))), d))
      case _ => Err(TypeError)
  }

  /** `write(path, data, offset)`, returning the number of bytes written; a
      missing node writes nothing and returns 0. */
  function Write(s: Store, path: string, data: seq<Utf8.byte>, offset: nat): (r: Step<nat>)
    requires ValidStore(s)
    ensures ValidStore(r.store)
    ensures r.result.Err? ==> r.store == s
    ensures JsonFs.Find(s, path) == Ok(None) ==> r == Step(s, Ok(0))
    ensures JsonFs.Find(s, path).Ok? && JsonFs.Find(s, path).value.Some? ==>
              var n := JsonFs.Find(s, path).value.value;
              && (r.result.Ok? <==> WriteNode(n, data, offset).Ok?)
              && (r.result.Ok? ==> r == Step(s.Put(JsonFs.FindKey(path), WriteNode(n, data, offset).value.0), Ok(|data|)))
  {
    match JsonFs.Find(s, path)
    case Err(e) => Step(s, Err(e))
    case Ok(None) => Step(s, Ok(0))
    case Ok(Some(n)) =>
      match WriteNode(n, data, offset)
      case Err(e) => Step(s, Err(e))
      case Ok((n2, _)) =>
        PutValid(s, JsonFs.FindKey(path), n2);
        Step(s.Put(JsonFs.FindKey(path), n2), Ok(|data|))
  }

  /** `write` as the class performs it: the same store, but the count returned
      is `len(data)` after decoding, the number of characters. */
  function WriteAsWritten(s: Store, path: string, data: seq<Utf8.byte>, offset: nat): (r: Step<nat>)
    requires ValidStore(s)
    ensures r.store == Write(s, path, data, offset).store
    ensures r.result.Ok? <==> Write(s, path, data, offset).result.Ok?
  {
    match JsonFs.Find(s, path)
    case Err(e) => Step(s, Err(e))
    case Ok(None) => Step(s, Ok(0))
    case Ok(Some(n)) =>
      match WriteNode(n, data, offset)
      case Err(e) => Step(s, Err(e))
      case Ok((n2, d)) => Step(s.Put(JsonFs.FindKey(path), n2), Ok(|d|))
  }

  /** Writing the two bytes of "é" stores the character but reports one byte written. */
  lemma WriteAsWrittenUndercounts(s: Store, p: string)
    requires ValidStore(s) && Paths.Canonical(p) && p != "/"
    requires p in s.entries && s.entries[p].content == Text("")
    ensures WriteAsWritten(s, p, [0xC3, 0xA9], 0).result == Ok(1)
    ensures Write(s, p, [0xC3, 0xA9], 0).result == Ok(2)
  {
    JsonFs.FindCanonical(s, p);
    Utf8.DecodeEncode("é");
    assert Utf8.Encode("é") == [0xC3, 0xA9];
  }

  /** The `st_size` a write records is the size `getattr` recomputes for the new content. */
  lemma WriteRecordsSize(s: Store, p: string, data: seq<Utf8.byte>, offset: nat)
    requires ValidStore(s) && Paths.Canonical(p) && p != "/"
    requires p in s.entries && s.entries[p].kind == File
    requires Write(s, p, data, offset).result.Ok?
    ensures var n := Write(s, p, data, offset).store.entries[p];
            && AttrOf(n, "st_size").Some?
            && PlainSize(n).Ok?
            && Numerals.ParseInt(AttrOf(n, "st_size").value) == Some(PlainSize(n).value as int)
  {
    JsonFs.FindCanonical(s, p);
    var n := s.entries[p];
    var t := if n.content.Text? then n.content.text else "";
    var c := Spliced(t, offset, Utf8.Decode(data).value);
    Numerals.ParsePrinted(Utf8.Len(c));
  }

  /** The slice of spliced text at the offset is the written text. */
  lemma SliceSpliced(prev: string, offset: nat, data: string)
    ensures Text.Slice(Spliced(prev, offset, data), offset, offset + |data|) == data
  {
    var c := Spliced(prev, offset, data);
    if |data| > 0 { assert c[offset..offset + |data|] == c[offset..]; }
  }

  /** A successful `write` to a normalised path stores the node `WriteNode` builds there. */
  lemma WriteStores(s: Store, p: string, data: seq<Utf8.byte>, offset: nat)
    requires ValidStore(s) && Paths.Canonical(p) && p != "/"
    requires p in s.entries && WriteNode(s.entries[p], data, offset).Ok?
    ensures Write(s, p, data, offset) == Step(s.Put(p, WriteNode(s.entries[p], data, offset).value.0), Ok(|data|))
  {
    JsonFs.FindCanonical(s, p);
  }

  /** Reading a file whose content is text returns the encoded slice and changes nothing. */
  lemma ReadText(s: Store, p: string, size: nat, offset: nat,
                 generate: (string, Store) -> Result<string, Error>, dump: Store -> string)
    requires ValidStore(s) && Paths.Canonical(p) && p != "/" && p != FsJson
    requires p in s.entries && s.entries[p].content.Text?
    ensures Read(s, p, size, offset, generate, dump)
            == Step(s, Ok(Utf8.Encode(Text.Slice(s.entries[p].content.text, offset, offset + size))))
  {
    JsonFs.FindCanonical(s, p);
  }

  /** What is written at an offset reads back from that offset. */
  lemma WriteThenRead(s: Store, p: string, text: string, offset: nat,
                      generate: (string, Store) -> Result<string, Error>, dump: Store -> string)
    requires ValidStore(s) && Paths.Canonical(p) && p != "/" && p != FsJson
    requires p in s.entries && s.entries[p].kind == File && s.entries[p].content.Text?
    ensures var w := Write(s, p, Utf8.Encode(text), offset);
            && w.result == Ok(Utf8.Len(text))
            && Read(w.store, p, |text|, offset, generate, dump) == Step(w.store, Ok(Utf8.Encode(text)))
  {
    var n := s.entries[p];
    var c := Spliced(n.content.text, offset, text);
    assert WriteNode(n, Utf8.Encode(text), offset).Ok? by {
      Utf8.DecodeEncode(text);
    }
    var n2 := WriteNode(n, Utf8.Encode(text), offset).value.0;
    assert n2.content == Text(c) by {
      Utf8.DecodeEncode(text);
    }
    assert Write(s, p, Utf8.Encode(text), offset) == Step(s.Put(p, n2), Ok(|Utf8.Encode(text)|)) by {
      WriteStores(s, p, Utf8.Encode(text), offset);
    }
    var w := s.Put(p, n2);
    assert Read(w, p, |text|, offset, generate, dump) == Step(w, Ok(Utf8.Encode(text))) by {
      assert w.entries[p] == n2;
      ReadText(w, p, |text|, offset, generate, dump);
      SliceSpliced(n.content.text, offset, text);
    }
  }

  /** `truncate(path, length)`: keeps `content[:length]` (no padding) and records
      `length` as the size; a missing node is left alone. */
  function Truncate(s: Store, path: string, length: nat): (r: Step<()>)
    requires ValidStore(s)
    ensures ValidStore(r.store)
    ensures r.result.Err? ==> r.store == s
    ensures JsonFs.Find(s, path) == Ok(None) ==> r == Step(s, Ok(()))
    ensures JsonFs.Find(s, path).Ok? && JsonFs.Find(s, path).value.Some? ==>
              var n := JsonFs.Find(s, path).value.value;
              && (r.result.Ok? <==> !n.content.Null?)
              && (r.result.Ok? ==> r.store == s.Put(JsonFs.FindKey(path), WithAttr(n.(content := TakeBody(n.content, length)), "st_size", Numerals.IntToString(length))))
  {
    match JsonFs.Find(s, path)
    case Err(e) => Step(s, Err(e))
    case Ok(None) => Step(s, Ok(()))
    case Ok(Some(n)) =>
      if n.content.Null? then Step(s, Err(TypeError))
      else
        var n2 := WithAttr(n.(content := TakeBody(n.content, length)), "st_size", Numerals.IntToString(length));
        PutValid(s, JsonFs.FindKey(path), n2);
        Step(s.Put(JsonFs.FindKey(path), n2), Ok(()))
  }

  /** `content[:length]` of `node.get("content", "")`. */
  function TakeBody(b: Body, length: nat): (r: Body)
    requires !b.Null?
    ensures b.Bytes? ==> r == Bytes(Text.Take(b.bytes, length))
    ensures !b.Bytes? ==> r.Text? && r.text == Text.Take(ContentOr(b).text, length)
  {
    match ContentOr(b)
    case Bytes(x) => Bytes(Text.Take(x, length))
    case Text(t) => Text(Text.Take(t, length))
  }

  /** After `truncate`, the content is the old text's prefix of the requested
      length, or all of it when the text is shorter. */
  lemma TruncateKeepsPrefix(s: Store, p: string, t: string, length: nat)
    requires ValidStore(s) && Paths.Canonical(p) && p != "/"
    requires p in s.entries && s.entries[p].content == Text(t)
    ensures var n := Truncate(s, p, length).store.entries[p];
            && n.content.Text?
            && |n.content.text| == (if length < |t| then length else |t|)
            && t == n.content.text + t[|n.content.text|..]
  {
    var n := s.entries[p];
    TruncateStores(s, p, length);
    var k := Text.Take(t, length);
    var cut := n.(content := TakeBody(n.content, length));
    assert cut.content == Text(k);
    var n2 := WithAttr(cut, "st_size", Numerals.IntToString(length));
    assert s.Put(p, n2).Get(p) == Some(n2);
    assert Truncate(s, p, length).store.entries[p] == n2;
    assert t == k + t[|k|..];
  }

  /** After `truncate`, the recorded size is the requested length. */
  lemma TruncateRecordsLength(s: Store, p: string, length: nat)
    requires ValidStore(s) && Paths.Canonical(p) && p != "/"
    requires p in s.entries && !s.entries[p].content.Null?
    ensures var n := Truncate(s, p, length).store.entries[p];
            && AttrOf(n, "st_size").Some?
            && Numerals.ParseInt(AttrOf(n, "st_size").value) == Some(length as int)
  {
    TruncateStores(s, p, length);
    Numerals.ParsePrinted(length);
  }

  /** `truncate` of a normalised path with non-null content stores the cut node there. */
  lemma TruncateStores(s: Store, p: string, length: nat)
    requires ValidStore(s) && Paths.Canonical(p) && p != "/"
    requires p in s.entries && !s.entries[p].content.Null?
    ensures var n := s.entries[p];
            Truncate(s, p, length).store
            == s.Put(p, WithAttr(n.(content := TakeBody(n.content, length)), "st_size", Numerals.IntToString(length)))
  {
    JsonFs.FindCanonical(s, p);
  }

  /** `create(path, mode)`: stores an empty file under its parent and returns a new descriptor. */
  function Create(m: Memory, path: string, mode: int): (r: Outcome<nat>)
    requires ValidStore(m.store)
    ensures ValidStore(r.fs.store)
    ensures r.fs.store == AddNode(m.store, path, NewFile(mode), false).store
    ensures r.result.Ok? <==> AddNode(m.store, path, NewFile(mode), false).result.Ok?
    ensures r.result.Ok? ==> r.result.value == m.fd + 1 && r.fs.fd == m.fd + 1
    ensures r.result.Err? ==> r.fs.fd == m.fd
  {
    var a := AddNode(m.store, path, NewFile(mode), false);
    match a.result
    case Err(e) => Outcome(Memory(a.store, m.fd), Err(e))
    case Ok(_) => Outcome(Memory(a.store, m.fd + 1), Ok(m.fd + 1))
  }

  /** A file created under an existing directory reports its requested
      mode, as a regular file, and size 0. */
  lemma CreateThenGetattr(m: Memory, parent: string, name: string, mode: int, now: int)
    requires ValidStore(m.store) && Paths.Canonical(parent) && Paths.ValidName(name)
    requires parent in m.store.entries && m.store.entries[parent].kind == Directory
    requires m.store.entries[parent].children.Some?
    ensures var c := Paths.Child(parent, name);
            var r := Create(m, c, mode);
            && r.result == Ok(m.fd + 1)
            && Getattr(r.fs.store, c, now).Ok?
            && Getattr(r.fs.store, c, now).value.Get("st_mode") == Some(Bits.BitOr(Bits.S_IFREG, mode))
            && Getattr(r.fs.store, c, now).value.Get("st_size") == Some(0)
  {
    var c := Paths.Child(parent, name);
    CreateUnderParent(m, parent, name, mode);
    var st := Create(m, c, mode).fs.store;
    ChildNotRoot(parent, name);
    JsonFs.FindCanonical(st, c);
    GetattrNewFile(st, c, mode, now);
  }

  lemma ChildNotRoot(parent: string, name: string)
    requires Paths.Canonical(parent) && Paths.ValidName(name)
    ensures Paths.Canonical(Paths.Child(parent, name)) && Paths.Child(parent, name) != "/"
  {
    Paths.ChildCanonical(parent, name);
    SplitChild(parent, name);
  }

  /** `create` under an existing directory stores the new file under the child path. */
  lemma CreateUnderParent(m: Memory, parent: string, name: string, mode: int)
    requires ValidStore(m.store) && Paths.Canonical(parent) && Paths.ValidName(name)
    requires parent in m.store.entries && m.store.entries[parent].kind == Directory
    requires m.store.entries[parent].children.Some?
    ensures var r := Create(m, Paths.Child(parent, name), mode);
            r.result == Ok(m.fd + 1) && r.fs.store.Get(Paths.Child(parent, name)) == Some(NewFile(mode))
  {
    var c := Paths.Child(parent, name);
    var a := AddNode(m.store, c, NewFile(mode), false);
    assert a.result.Ok? && a.store.Get(c) == Some(NewFile(mode)) by {
      AddNodeUnderParent(m.store, parent, name, NewFile(mode), false);
    }
    CreateAdds(m, c, mode);
  }

  lemma CreateAdds(m: Memory, c: string, mode: int)
    requires ValidStore(m.store) && AddNode(m.store, c, NewFile(mode), false).result.Ok?
    ensures Create(m, c, mode).result == Ok(m.fd + 1)
    ensures Create(m, c, mode).fs.store == AddNode(m.store, c, NewFile(mode), false).store
  {
  }

  lemma GetattrNewFile(s: Store, c: string, mode: int, now: int)
    requires ValidStore(s) && c != "/" && JsonFs.Find(s, c) == Ok(Some(NewFile(mode)))
    ensures Getattr(s, c, now).Ok?
    ensures Getattr(s, c, now).value.Get("st_mode") == Some(Bits.BitOr(Bits.S_IFREG, mode))
    ensures Getattr(s, c, now).value.Get("st_size") == Some(0)
  {
    var n := NewFile(mode);
    GetattrFound(s, c, n, now);
    NewFileStat(mode, now);
  }

  lemma GetattrFound(s: Store, c: string, n: Node, now: int)
    requires ValidStore(s) && JsonFs.Find(s, c) == Ok(Some(n)) && PlainSize(n).Ok?
    ensures n.attrs.Valid() && Getattr(s, c, now) == Ok(Stat(n, now, PlainSize(n).value))
  {
  }

  lemma NewFileStat(mode: int, now: int)
    ensures Stat(NewFile(mode), now, 0).Get("st_mode") == Some(Bits.BitOr(Bits.S_IFREG, mode))
    ensures Stat(NewFile(mode), now, 0).Get("st_size") == Some(0)
  {
    NewFileMode(mode);
    StatStoredMode(NewFile(mode), now, 0);
  }

  /** A parsable stored mode is reported as stored, next to the computed size. */
  lemma StatStoredMode(n: Node, now: int, size: nat)
    requires n.attrs.Valid() && IntAttr(n.attrs, "st_mode").Some?
    ensures Stat(n, now, size).Get("st_mode") == IntAttr(n.attrs, "st_mode")
    ensures Stat(n, now, size).Get("st_size") == Some(size)
  {
    StatAt(n, now, size, "st_mode");
    StatAt(n, now, size, "st_size");
    ReportedMode(n, now, size);
  }

  lemma ReportedMode(n: Node, now: int, size: nat)
    requires IntAttr(n.attrs, "st_mode").Some?
    ensures Reported(n, "st_mode", now, size) == IntAttr(n.attrs, "st_mode")
  {
    assert "st_mode"[3] != "st_size"[3];
  }

  lemma NewFileMode(mode: int)
    ensures IntAttr(NewFile(mode).attrs, "st_mode") == Some(Bits.BitOr(Bits.S_IFREG, mode))
  {
    Numerals.ParsePrinted(Bits.BitOr(Bits.S_IFREG, mode));
    assert "st_mode"[..3] == "st_";
  }

  /** `open`: the next descriptor; nothing else changes. */
  function Open(m: Memory): (r: Outcome<nat>)
    ensures r.fs.store == m.store && r.fs.fd == m.fd + 1 && r.result == Ok(r.fs.fd)
  {
    Outcome(Memory(m.store, m.fd + 1), Ok(m.fd + 1))
  }
}
