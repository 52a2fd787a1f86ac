/**
 The file operations of the split `llmfs` memory filesystem: `create`,
 `open`, `read`, `write`, `truncate` and `release` over the shared state, and
 its `_get_size`, whose reserved prefix is `/.llmfs/`. Generated content is
 text; the generator is a parameter receiving the path and a stripped copy of
 the store.
 */
module LlmfsMemory {
  import opened Wrappers
  import opened Dicts
  import opened Nodes
  import opened MemoryBase
  import StoreOps
  import JsonFs
  import LegacyFs
  import Trigger
  import Text
  import Utf8
  import Numerals
  import Paths

  const Prefix: string := "/.llmfs/"

  /** What `generate_file_content(path, structure)` answers for the path at
      hand, given `Snapshot` of the store: the text it returns or the
      exception it raises. */
  type Generation = Result<string, Error>

  function AsBody(g: Generation): (r: Result<Body, Error>)
    ensures g.Ok? ==> r == Ok(Text(g.value))
    ensures g.Err? ==> r == Err(g.error)
  {
    match g
    case Ok(t) => Ok(Text(t))
    case Err(e) => Err(e)
  }

  /** `_get_size(node)` for the node under `k`, generating from a snapshot of the store. */
  function GetSize(fs: Fs, k: string, g: Generation): (r: Outcome<nat>)
    requires ValidStore(fs.store) && k in fs.store.entries
    ensures ValidStore(r.fs.store) && r.fs.store.keys == fs.store.keys
    ensures r.fs.fd == fs.fd && r.fs.files == fs.files
    ensures forall j :: j in fs.store.entries && fs.store.entries[j] != fs.store.entries[k] ==> r.fs.store.Get(j) == fs.store.Get(j)
  {
    var st := Trigger.GetSize(fs.store, k, Prefix, false, (p: string) => AsBody(g));
    Outcome(fs.(store := st.store), st.result)
  }

  /** A due generation that yields text stores it under the node's path and
      reports its UTF-8 size; the `generate_content` marker stays exactly when
      the path is under `/.llmfs/`. */
  lemma GetSizeGenerated(fs: Fs, k: string, g: Generation, t: string)
    requires ValidStore(fs.store) && k in fs.store.entries && Trigger.Marked(fs.store.entries[k])
    requires Trigger.DueAt(fs.store, k, Prefix)
    requires g == Ok(t) && |t| > 0
    ensures var p := Trigger.PathOf(fs.store, k);
            var r := GetSize(fs, k, g);
            && r.result == Ok(Utf8.Len(t))
            && r.fs.store.Get(p).Some? && r.fs.store.Get(p).value.content == Text(t)
            && (Text.StartsWith(p, Prefix) <==>
                 XattrOf(r.fs.store.Get(p).value, Trigger.GenerateContent) == XattrOf(fs.store.entries[k], Trigger.GenerateContent))
  {
    var produce := (p: string) => AsBody(g);
    Trigger.GenerationStores(fs.store, k, Prefix, false, produce);
  }

  /** A generation that raises leaves the store as it was, marker included, and
      reports the size of the existing content. */
  lemma GetSizeFailureRetries(fs: Fs, k: string, g: Generation)
    requires ValidStore(fs.store) && k in fs.store.entries && Trigger.Marked(fs.store.entries[k])
    requires Trigger.DueAt(fs.store, k, Prefix)
    requires g.Err?
    ensures GetSize(fs, k, g) == Outcome(fs, Trigger.ExistingSize(fs.store.entries[k].content))
  {
    var produce := (p: string) => AsBody(g);
    Trigger.FailureKeepsNode(fs.store, k, Prefix, false, produce);
  }

  /** `create(path, mode)`: the file is stored and linked as the single-class
      filesystem does it, and a new descriptor is returned without an
      open-file record. */
  function Create(fs: Fs, path: string, mode: int): (r: Outcome<nat>)
    requires ValidStore(fs.store)
    ensures ValidStore(r.fs.store) && r.fs.files == fs.files
    ensures var a := StoreOps.AddNode(fs.store, path, StoreOps.NewFile(mode), false);
            && r.fs.store == a.store
            && if a.result.Ok? then r.result == Ok(fs.fd + 1) && r.fs.fd == fs.fd + 1
            else r.result == Err(a.result.error) && r.fs.fd == fs.fd
  {
    var a := StoreOps.AddNode(fs.store, path, StoreOps.NewFile(mode), false);
    match a.result
    case Err(e) => Outcome(fs.(store := a.store), Err(e))
    case Ok(_) => Outcome(Fs(a.store, fs.fd + 1, fs.files), Ok(fs.fd + 1))
  }

  /** The descriptor `create` returns names no open file, before or after. */
  lemma CreateRecordsNothing(fs: Fs, path: string, mode: int)
    requires ValidStore(fs.store) && Handed(fs)
    requires Create(fs, path, mode).result.Ok?
    ensures var r := Create(fs, path, mode);
            r.result.value !in r.fs.files && Handed(r.fs)
  {
  }

  /** Whether `open` fills a file: its content is empty, or it has a
      `generator` attribute, whatever its `generate_content` marker says. */
  predicate Fills(n: Node)
  {
    !Truthy(n.content) || XattrOf(n, Trigger.GeneratorKey).Some?
  }

  /** A found file of the store under `path`. */
  predicate FoundFile(s: Store, path: string)
  {
    JsonFs.Find(s, path).Ok? && JsonFs.Find(s, path).value.Some? && JsonFs.Find(s, path).value.value.kind == File
  }

  /** `open(path, flags)`: a file that `Fills` is given the generated text,
      with its UTF-8 size recorded, or empty text when generation raises; then
      a new descriptor is recorded for the path. A missing node or one that is
      not a file raises ENOENT. */
  function Open(fs: Fs, path: string, g: Generation): (r: Outcome<nat>)
    requires ValidStore(fs.store)
    ensures ValidStore(r.fs.store) && r.fs.store.keys == fs.store.keys
    ensures r == OpenAt(fs, path, JsonFs.Find(fs.store, path), JsonFs.FindKey(path), g)
  {
    OpenAt(fs, path, JsonFs.Find(fs.store, path), JsonFs.FindKey(path), g)
  }

  /** `open` once the path has been looked up: `found` is what `find` returned,
      `k` the key it read and `g` what the generator answers for the path. */
  function OpenAt(fs: Fs, path: string, found: Result<Option<Node>, Error>, k: string, g: Generation): (r: Outcome<nat>)
    requires ValidStore(fs.store)
    requires found.Ok? && found.value.Some? ==> k in fs.store.entries && fs.store.entries[k] == found.value.value
    ensures ValidStore(r.fs.store) && r.fs.store.keys == fs.store.keys
    ensures r.result.Err? ==> r.fs == fs
    ensures found.Ok? ==> (r.result.Ok? <==> found.value.Some? && found.value.value.kind == File)
    ensures found.Ok? && !(found.value.Some? && found.value.value.kind == File) ==> r.result == Err(NoEntry)
    ensures r.result.Ok? ==> r.result.value == fs.fd + 1 && r.fs.fd == fs.fd + 1 && r.fs.files == fs.files[fs.fd + 1 := path]
    ensures r.result.Ok? ==> forall j :: j != k ==> r.fs.store.Get(j) == fs.store.Get(j)
  {
    match found
    case Err(e) => Outcome(fs, Err(e))
    case Ok(None) => Outcome(fs, Err(NoEntry))
    case Ok(Some(n)) =>
      if n.kind != File then Outcome(fs, Err(NoEntry))
      else OpenFile(fs, path, k, g)
  }

  /** `open` of the file found under `k`: filled when it `Fills`, then recorded. */
  function OpenFile(fs: Fs, path: string, k: string, g: Generation): (r: Outcome<nat>)
    requires ValidStore(fs.store) && k in fs.store.entries
    ensures ValidStore(r.fs.store) && r.fs.store.keys == fs.store.keys
    ensures r.result == Ok(fs.fd + 1) && r.fs.fd == fs.fd + 1 && r.fs.files == fs.files[fs.fd + 1 := path]
    ensures forall j :: j != k ==> r.fs.store.Get(j) == fs.store.Get(j)
  {
    var n := fs.store.entries[k];
    Record(Fs(if Fills(n) then Refilled(fs.store, k, g) else fs.store, fs.fd, fs.files), path)
  }

  /** The store after `open` filled the file under `k` from `g(path, ...)`. */
  function Refilled(s: Store, k: string, g: Generation): (r: Store)
    requires ValidStore(s) && k in s.entries
    ensures ValidStore(r) && r.keys == s.keys
    ensures forall j :: j != k ==> r.Get(j) == s.Get(j)
    ensures r.Get(k) == Some(LegacyFs.Filled(s.entries[k], g))
  {
    var n2 := LegacyFs.Filled(s.entries[k], g);
    PutValid(s, k, n2);
    s.Put(k, n2)
  }

  /** `open` of a normalised path reads the node stored there. */
  lemma OpenCanonical(fs: Fs, p: string, g: Generation)
    requires ValidStore(fs.store) && Paths.Canonical(p) && p != "/" && p in fs.store.entries
    ensures Open(fs, p, g) == OpenAt(fs, p, Ok(Some(fs.store.entries[p])), p, g)
  {
    JsonFs.FindCanonical(fs.store, p);
  }

  /** A file with content and no `generator` attribute is opened as it is: the
      generator is not consulted and the store does not change. */
  lemma OpenKeepsContent(fs: Fs, p: string, g: Generation, other: Generation)
    requires ValidStore(fs.store) && Paths.Canonical(p) && p != "/"
    requires p in fs.store.entries && fs.store.entries[p].kind == File && !Fills(fs.store.entries[p])
    ensures Open(fs, p, g) == Open(fs, p, other)
    ensures Open(fs, p, g).fs.store == fs.store
  {
    OpenCanonical(fs, p, g);
    OpenCanonical(fs, p, other);
  }

  /** Opening a file that `Fills` stores the generated text under its path and
      records its UTF-8 size; the extended attributes are not touched. */
  lemma OpenGenerates(fs: Fs, p: string, g: Generation, t: string)
    requires ValidStore(fs.store) && Paths.Canonical(p) && p != "/"
    requires p in fs.store.entries && fs.store.entries[p].kind == File && Fills(fs.store.entries[p])
    requires g == Ok(t)
    ensures var n := Open(fs, p, g).fs.store.Get(p);
            && n.Some? && n.value.content == Text(t)
            && n.value.xattrs == fs.store.entries[p].xattrs
            && AttrOf(n.value, "st_size").Some?
            && Numerals.ParseInt(AttrOf(n.value, "st_size").value) == Some(Utf8.Len(t) as int)
  {
    OpenCanonical(fs, p, g);
    var n2 := LegacyFs.Filled(fs.store.entries[p], Ok(t));
    assert Open(fs, p, g).fs.store.Get(p) == Some(n2);
    Numerals.ParsePrinted(Utf8.Len(t));
  }

  /** A generation that raises during `open` leaves the file with empty text and
      its attributes as they were. */
  lemma OpenFailureBlanks(fs: Fs, p: string, g: Generation)
    requires ValidStore(fs.store) && Paths.Canonical(p) && p != "/"
    requires p in fs.store.entries && fs.store.entries[p].kind == File && Fills(fs.store.entries[p])
    requires g.Err?
    ensures Open(fs, p, g).fs.store.Get(p) == Some(fs.store.entries[p].(content := Text("")))
  {
    OpenCanonical(fs, p, g);
  }

  /** A successful `open` hands out a descriptor no record held, and releasing
      it restores the open-file table. */
  lemma OpenThenRelease(fs: Fs, p: string, g: Generation)
    requires ValidStore(fs.store) && Handed(fs)
    requires Open(fs, p, g).result.Ok?
    ensures var o := Open(fs, p, g);
            && Handed(o.fs) && o.result.value !in fs.files
            && Release(o.fs, o.result.value).fs.files == fs.files
  {
    var o := Open(fs, p, g);
    assert o.fs == Record(Fs(o.fs.store, fs.fd, fs.files), p).fs;
    RecordThenRelease(Fs(o.fs.store, fs.fd, fs.files), p);
  }

  /** `read(path, size, offset, fh)`: through a recorded descriptor, the node
      under the recorded path; otherwise the file found under `path`, opened
      first when its content is empty (ENOENT for a missing node or one that is
      not a file). The result is the UTF-8 encoding of `content[offset:offset+size]`. */
  function Read(fs: Fs, path: string, size: nat, offset: nat, fh: nat, g: Generation): (r: Outcome<seq<Utf8.byte>>)
    requires ValidStore(fs.store)
    ensures ValidStore(r.fs.store)
    ensures fh in fs.files ==> r.fs == fs
    ensures fh in fs.files && Held(fs, fh).Ok? ==> r.result == LegacyFs.SliceOf(Held(fs, fh).value.content, size, offset)
    ensures fh !in fs.files && JsonFs.Find(fs.store, path).Ok? && !FoundFile(fs.store, path) ==> r == Outcome(fs, Err(NoEntry))
    ensures fh !in fs.files && FoundFile(fs.store, path) ==>
              var n := JsonFs.Find(fs.store, path).value.value;
              if Truthy(n.content) then r == Outcome(fs, LegacyFs.SliceOf(n.content, size, offset))
              else
                var o := Open(fs, path, g).fs;
                r.fs == o && r.result == LegacyFs.SliceOf(o.store.entries[JsonFs.FindKey(path)].content, size, offset)
  {
    if fh in fs.files then
      match Held(fs, fh)
      case Err(e) => Outcome(fs, Err(e))
      case Ok(n) => Outcome(fs, LegacyFs.SliceOf(n.content, size, offset))
    else
      match JsonFs.Find(fs.store, path)
      case Err(e) => Outcome(fs, Err(e))
      case Ok(None) => Outcome(fs, Err(NoEntry))
      case Ok(Some(n)) =>
        if n.kind != File then Outcome(fs, Err(NoEntry))
        else if Truthy(n.content) then Outcome(fs, LegacyFs.SliceOf(n.content, size, offset))
        else
          var o := Open(fs, path, g).fs;
          Outcome(o, LegacyFs.SliceOf(o.store.entries[JsonFs.FindKey(path)].content, size, offset))
  }

  /** A read returns the encoding of at most `size` characters, taken from the offset on. */
  lemma ReadAtMostSize(fs: Fs, p: string, size: nat, offset: nat, fh: nat, g: Generation, t: string)
    requires ValidStore(fs.store) && Paths.Canonical(p) && p != "/" && fh !in fs.files
    requires p in fs.store.entries && fs.store.entries[p].kind == File && fs.store.entries[p].content == Text(t)
    requires |t| > 0
    ensures var w := Text.Slice(t, offset, offset + size);
            && Read(fs, p, size, offset, fh, g) == Outcome(fs, Ok(Utf8.Encode(w)))
            && |w| <= size
            && (offset < |t| ==> w == t[offset..if offset + size < |t| then offset + size else |t|])
  {
    JsonFs.FindCanonical(fs.store, p);
  }

  /** The node `write` works on: the node under a recorded descriptor's path,
      or the file found under `path`, opened first when its content is empty.
      Gives the filesystem after that step and the key the node is stored under. */
  function Target(fs: Fs, path: string, fh: nat, g: Generation): (r: Result<(Fs, string), Error>)
    requires ValidStore(fs.store)
    ensures r.Ok? ==> ValidStore(r.value.0.store) && r.value.1 in r.value.0.store.entries
    ensures r.Err? ==> fh in fs.files || !FoundFile(fs.store, path)
  {
    if fh in fs.files then
      match Held(fs, fh)
      case Err(e) => Err(e)
      case Ok(_) => Ok((fs, JsonFs.FindKey(fs.files[fh])))
    else
      match JsonFs.Find(fs.store, path)
      case Err(e) => Err(e)
      case Ok(None) => Err(NoEntry)
      case Ok(Some(n)) =>
        if n.kind != File then Err(NoEntry)
        else if Truthy(n.content) then Ok((fs, JsonFs.FindKey(path)))
        else Ok((Open(fs, path, g).fs, JsonFs.FindKey(path)))
  }

  /** `write(path, data, offset, fh)`: the node `Target` names is written by
      `WriteTo`; a failure to find it is returned with nothing changed. */
  function Write(fs: Fs, path: string, data: seq<Utf8.byte>, offset: nat, fh: nat, g: Generation): (r: Outcome<nat>)
    requires ValidStore(fs.store)
    ensures ValidStore(r.fs.store)
    ensures var t := Target(fs, path, fh, g);
            && (t.Err? ==> r == Outcome(fs, Err(t.error)))
            && (t.Ok? ==> r == WriteTo(t.value.0, t.value.1, data, offset))
  {
    match Target(fs, path, fh, g)
    case Err(e) => Outcome(fs, Err(e))
    case Ok((f, k)) => WriteTo(f, k, data, offset)
  }

  /** Writing the node under `k`: it must be a file (ENOENT otherwise) and the
      data must be UTF-8; the text is padded with spaces up to the offset, cut
      there, and followed by the data, with its UTF-8 size recorded. Returns
      the number of bytes written. */
  function WriteTo(f: Fs, k: string, data: seq<Utf8.byte>, offset: nat): (r: Outcome<nat>)
    requires ValidStore(f.store) && k in f.store.entries
    ensures ValidStore(r.fs.store)
    ensures var n := f.store.entries[k];
            && (r.result.Ok? <==> n.kind == File && LegacyFs.WriteNode(n, data, offset).Ok?)
            && (r.result.Ok? ==> r == Outcome(f.(store := f.store.Put(k, LegacyFs.WriteNode(n, data, offset).value.0)), Ok(|data|)))
            && (r.result.Err? ==> r.fs == f)
  {
    var n := f.store.entries[k];
    if n.kind != File then Outcome(f, Err(NoEntry))
    else
      match LegacyFs.WriteNode(n, data, offset)
      case Err(e) => Outcome(f, Err(e))
      case Ok((n2, _)) =>
        PutValid(f.store, k, n2);
        Outcome(f.(store := f.store.Put(k, n2)), Ok(|data|))
  }

  /** `write` as the class performs it: the same filesystem afterwards, but the
      count returned is the number of characters the data decodes to. */
  function WriteAsWritten(fs: Fs, path: string, data: seq<Utf8.byte>, offset: nat, fh: nat, g: Generation): (r: Outcome<nat>)
    requires ValidStore(fs.store)
    ensures r.fs == Write(fs, path, data, offset, fh, g).fs
    ensures r.result.Ok? <==> Write(fs, path, data, offset, fh, g).result.Ok?
    ensures r.result.Ok? ==> Utf8.Decode(data).Some? && r.result.value == |Utf8.Decode(data).value|
  {
    var w := Write(fs, path, data, offset, fh, g);
    if w.result.Ok? then Outcome(w.fs, Ok(|Utf8.Decode(data).value|)) else w
  }

  /** Writing the two bytes of "é" into a file with text reports one byte, where two were written. */
  lemma WriteAsWrittenUndercounts(fs: Fs, p: string, g: Generation)
    requires ValidStore(fs.store) && Paths.Canonical(p) && p != "/" && 0 !in fs.files
    requires p in fs.store.entries && fs.store.entries[p].kind == File && fs.store.entries[p].content == Text("x")
    ensures WriteAsWritten(fs, p, [0xC3, 0xA9], 0, 0, g).result == Ok(1)
    ensures Write(fs, p, [0xC3, 0xA9], 0, 0, g).result == Ok(2)
  {
    JsonFs.FindCanonical(fs.store, p);
    Utf8.DecodeEncode("é");
    assert Utf8.Encode("é") == [0xC3, 0xA9];
  }

  /** What is written into a file with text reads back from the same offset,
      when neither call goes through a descriptor. */
  lemma WriteThenRead(fs: Fs, p: string, text: string, offset: nat, fh: nat, g: Generation)
    requires ValidStore(fs.store) && Paths.Canonical(p) && p != "/" && fh !in fs.files
    requires p in fs.store.entries && fs.store.entries[p].kind == File && Truthy(fs.store.entries[p].content)
    requires fs.store.entries[p].content.Text? && |text| > 0
    ensures var w := Write(fs, p, Utf8.Encode(text), offset, fh, g);
            && w.result == Ok(Utf8.Len(text))
            && Read(w.fs, p, |text|, offset, fh, g).result == Ok(Utf8.Encode(text))
  {
    var n := fs.store.entries[p];
    var data := Utf8.Encode(text);
    var c := LegacyFs.Spliced(n.content.text, offset, text);
    assert LegacyFs.WriteNode(n, data, offset).Ok? && LegacyFs.WriteNode(n, data, offset).value.0.content == Text(c) by {
      Utf8.DecodeEncode(text);
    }
    var n2 := LegacyFs.WriteNode(n, data, offset).value.0;
    var f := fs.(store := fs.store.Put(p, n2));
    assert Write(fs, p, data, offset, fh, g) == Outcome(f, Ok(|data|)) by {
      WriteFilled(fs, p, data, offset, fh, g);
    }
    assert Read(f, p, |text|, offset, fh, g).result == Ok(Utf8.Encode(text)) by {
      assert f.store.entries[p] == n2;
      ReadAtMostSize(f, p, |text|, offset, fh, g, c);
      LegacyFs.SliceSpliced(n.content.text, offset, text);
    }
  }

  /** A write to a file with content, not through a descriptor, stores the
      node `WriteNode` builds under the file's path. */
  lemma WriteFilled(fs: Fs, p: string, data: seq<Utf8.byte>, offset: nat, fh: nat, g: Generation)
    requires ValidStore(fs.store) && Paths.Canonical(p) && p != "/" && fh !in fs.files
    requires p in fs.store.entries && fs.store.entries[p].kind == File && Truthy(fs.store.entries[p].content)
    requires LegacyFs.WriteNode(fs.store.entries[p], data, offset).Ok?
    ensures Write(fs, p, data, offset, fh, g)
            == Outcome(fs.(store := fs.store.Put(p, LegacyFs.WriteNode(fs.store.entries[p], data, offset).value.0)), Ok(|data|))
  {
    assert Target(fs, p, fh, g) == Ok((fs, p)) by {
      JsonFs.FindCanonical(fs.store, p);
    }
  }

  /** `truncate(path, length)`: the same operation as the single-class
      filesystem's, with the descriptors untouched. */
  function Truncate(fs: Fs, path: string, length: nat): (r: Outcome<()>)
    requires ValidStore(fs.store)
    ensures ValidStore(r.fs.store) && r.fs.fd == fs.fd && r.fs.files == fs.files
    ensures r.fs.store == LegacyFs.Truncate(fs.store, path, length).store
    ensures r.result == LegacyFs.Truncate(fs.store, path, length).result
  {
    var t := LegacyFs.Truncate(fs.store, path, length);
    Outcome(fs.(store := t.store), t.result)
  }

  /** Truncating beyond the end neither pads nor cuts the text, yet records the
      requested length as the size. */
  lemma TruncateBeyondEnd(fs: Fs, p: string, t: string, length: nat)
    requires ValidStore(fs.store) && Paths.Canonical(p) && p != "/"
    requires p in fs.store.entries && fs.store.entries[p].content == Text(t) && length > |t|
    ensures var n := Truncate(fs, p, length).fs.store.entries[p];
            && n.content == Text(t)
            && AttrOf(n, "st_size").Some?
            && Numerals.ParseInt(AttrOf(n, "st_size").value) == Some(length as int)
  {
    LegacyFs.TruncateStores(fs.store, p, length);
    LegacyFs.TruncateRecordsLength(fs.store, p, length);
  }
}
