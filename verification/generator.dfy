/**
 Content generation in the older package: `generate_file_content` hides the
 reserved `/.llmfs` tree from generators working on ordinary files, picks the
 first registered generator that claims the file, and consults the response
 cache for ordinary files. `generate_filesystem` applies the same hiding to a
 generated structure.

 The generator's own answer, the model name and the prompt used in the cache
 key are parameters: they come from a language-model call and from plugin
 code that is not part of this model.
 */
module Generator {
  import opened Wrappers
  import opened Dicts
  import Text
  import Nodes
  import Plugins
  import Registry
  import opened Values
  import CacheStats
  import Cache

  /** The reserved directory itself or anything below it. */
  predicate Reserved(p: string)
  {
    Text.StartsWith(p, Plugins.LlmfsDir) || p == "/.llmfs"
  }

  /** The keys that are not reserved paths, in order. */
  function OpenKeys(keys: seq<string>): (r: seq<string>)
    ensures forall k :: k in r <==> k in keys && !Reserved(k)
    ensures Distinct(keys) ==> Distinct(r)
  {
    if |keys| == 0 then []
    else
      var rest := OpenKeys(keys[1..]);
      if Reserved(keys[0]) then rest
      else
        assert Distinct(keys) ==> keys[0] !in rest;
        [keys[0]] + rest
  }

  /** The names whose target path is not reserved, in order. */
  function OpenNames(names: seq<string>, links: map<string, string>): (r: seq<string>)
    requires forall n :: n in names ==> n in links
    ensures forall n :: n in r <==> n in names && !Reserved(links[n])
    ensures Distinct(names) ==> Distinct(r)
  {
    if |names| == 0 then []
    else
      var rest := OpenNames(names[1..], links);
      if Reserved(links[names[0]]) then rest
      else
        assert Distinct(names) ==> names[0] !in rest;
        [names[0]] + rest
  }

  /** A children map without the entries that point into the reserved tree. */
  function FilterChildren(c: Dict<string, string>): (r: Dict<string, string>)
    requires c.Valid()
    ensures r.Valid()
    ensures forall n :: r.Get(n) == if c.Get(n).Some? && !Reserved(c.Get(n).value) then c.Get(n) else None
  {
    var names := OpenNames(c.keys, c.entries);
    Dict(names, map n | n in c.entries && !Reserved(c.entries[n]) :: c.entries[n])
  }

  /** A node whose non-empty children map has been filtered; nothing else changes. */
  function FilterNode(n: Nodes.Node): (r: Nodes.Node)
    requires n.Valid()
    ensures r.Valid()
    ensures r.kind == n.kind && r.content == n.content && r.attrs == n.attrs && r.xattrs == n.xattrs
    ensures r.children.Some? <==> n.children.Some?
    ensures n.children.Some? ==> r.children.value == FilterChildren(n.children.value)
  {
    match n.children
    case Some(c) => if |c.keys| > 0 then n.(children := Some(FilterChildren(c))) else n
    case None => n
  }

  /** The structure without the reserved tree: reserved paths are dropped and
      the kept directories forget their links into it. */
  function FilterStore(s: Nodes.Store): (r: Nodes.Store)
    requires Nodes.ValidStore(s)
    ensures Nodes.ValidStore(r)
    ensures r.keys == OpenKeys(s.keys)
    ensures forall p :: p in r.entries <==> p in s.entries && !Reserved(p)
    ensures forall p :: p in r.entries ==> r.entries[p] == FilterNode(s.entries[p])
  {
    Dict(OpenKeys(s.keys), map p | p in s.entries && !Reserved(p) :: FilterNode(s.entries[p]))
  }

  /** A filtered structure shows nothing of the reserved tree: no reserved
      path and no link to one. */
  lemma FilterHidesReserved(s: Nodes.Store)
    requires Nodes.ValidStore(s)
    ensures forall p :: p in FilterStore(s).entries ==> !Reserved(p)
    ensures forall p, n ::
              (p in FilterStore(s).entries && FilterStore(s).entries[p].children.Some?
               && FilterStore(s).entries[p].children.value.Get(n).Some?) ==>
              !Reserved(FilterStore(s).entries[p].children.value.Get(n).value)
  {
  }

  /** Every other path and link is kept, with its node unchanged apart from
      the links. */
  lemma FilterKeepsOpen(s: Nodes.Store, p: string, n: string)
    requires Nodes.ValidStore(s)
    requires p in s.entries && !Reserved(p)
    ensures p in FilterStore(s).entries
    ensures var o, f := s.entries[p], FilterStore(s).entries[p];
            f.kind == o.kind && f.content == o.content && f.attrs == o.attrs && f.xattrs == o.xattrs
    ensures var o, f := s.entries[p], FilterStore(s).entries[p];
            o.children.Some? && o.children.value.Get(n).Some? && !Reserved(o.children.value.Get(n).value) ==>
              f.children.Some? && f.children.value.Get(n) == o.children.value.Get(n)
  {
  }

  lemma FilterChildrenTwice(c: Dict<string, string>)
    requires c.Valid()
    ensures FilterChildren(FilterChildren(c)) == FilterChildren(c)
  {
    var f := FilterChildren(c);
    OpenNamesAll(f.keys, f.entries);
  }

  lemma FilterNodeTwice(n: Nodes.Node)
    requires n.Valid()
    ensures FilterNode(FilterNode(n)) == FilterNode(n)
  {
    if n.children.Some? {
      FilterChildrenTwice(n.children.value);
    }
  }

  /** Filtering is idempotent. */
  lemma FilterIdempotent(s: Nodes.Store)
    requires Nodes.ValidStore(s)
    ensures FilterStore(FilterStore(s)).entries == FilterStore(s).entries
  {
    var f := FilterStore(s);
    var ff := FilterStore(f);
    forall p | p in f.entries
      ensures ff.entries[p] == f.entries[p]
    {
      FilterNodeTwice(s.entries[p]);
    }
  }

  lemma OpenNamesAll(names: seq<string>, links: map<string, string>)
    requires forall n :: n in names ==> n in links && !Reserved(links[n])
    ensures OpenNames(names, links) == names
  {
  }

  /** Why generation fails; every case is a `RuntimeError`. */
  datatype Failure =
    | NoRegistry                 // "Plugin registry not available"
    | ConversionFailed           // "Failed to convert filesystem structure"
    | NoGenerator                // "No content generator available for <path>"
    | GenerationFailed           // "Plugin content generation failed"

  /** What `FileNode(...)` conversion needs of every node: an `st_mode` attribute. */
  predicate Convertible(s: Nodes.Store)
  {
    forall p :: p in s.entries ==> s.entries[p].attrs.Has("st_mode")
  }

  /** The structure the generators see for `path`. */
  function Visible(path: string, s: Nodes.Store): (r: Nodes.Store)
    requires Nodes.ValidStore(s)
    ensures Nodes.ValidStore(r)
    ensures Reserved(path) ==> r == s
    ensures !Reserved(path) ==> r == FilterStore(s)
  {
    if Reserved(path) then s else FilterStore(s)
  }

  function KindName(k: Nodes.Kind): string
  {
    match k
    case File => "file"
    case Directory => "directory"
    case Symlink => "symlink"
  }

  /** The cache key's request: exactly the content type, the path, the model,
      the prompt and the node's type. */
  function Request(path: string, model: string, prompt: string, node: Nodes.Node): (r: Value)
    ensures r.Valid() && r.Map?
  {
    Object([("type", Str("file_content")), ("path", Str(path)), ("model", Str(model)),
            ("prompt", Str(prompt)), ("file_type", Str(KindName(node.kind)))])
  }

  /** The request depends on the file's type only: two structures that
      differ anywhere else give the same key. */
  lemma RequestIgnoresContent(path: string, model: string, prompt: string, a: Nodes.Node, b: Nodes.Node)
    requires a.kind == b.kind
    ensures Request(path, model, prompt, a) == Request(path, model, prompt, b)
  {
  }

  /** The inputs that come from outside: the cache's codec and the byte size
      of a written cache file, the model name, the prompt for the cache key,
      and the chosen generator's answer. */
  datatype Outside = Outside(
    codec: Cache.Codec,
    bytes: nat,
    model: string,
    prompt: string,
    answer: Result<string, Nodes.Error>)

  /** The cache applies to ordinary files when caching is on; never to
      files under the reserved directory. */
  predicate UsesCache(st: Cache.State, path: string)
  {
    st.enabled && !Text.StartsWith(path, Plugins.LlmfsDir)
  }

  /** The generation step once a generator is found, for the cache request
      `request`: with the cache in use, a non-empty cached answer is returned;
      otherwise the generator's answer is, and with the cache in use it is stored. */
  function Produce(st: Cache.State, uses: bool, request: Value, out: Outside): (r: (Cache.State, Result<Value, Failure>))
    requires Cache.ValidState(st) && request.Valid()
    ensures Cache.ValidState(r.0)
    ensures r.1.Err? ==> r.1.error == GenerationFailed
    ensures !uses ==> r.0 == st
    ensures !uses ==> r.1 == if out.answer.Ok? then Ok(Str(out.answer.value)) else Err(GenerationFailed)
  {
    var (st1, cached) := if uses then Cache.Get(st, out.codec, request) else (st, None);
    if cached.Some? && cached.value.Truthy() then (st1, Ok(cached.value))
    else match out.answer
      case Err(_) => (st1, Err(GenerationFailed))
      case Ok(content) =>
        var st2 := if uses then Cache.Put(st1, out.codec, request, Str(content), out.bytes) else st1;
        (st2, Ok(Str(content)))
  }

  /** Choosing the generator: no generator claims the file exactly when the
      call fails with `NoGenerator`, and then nothing else happens. */
  function Dispatch(gens: Registry.Generators, path: string, node: Nodes.Node, st: Cache.State, out: Outside)
    : (r: (Cache.State, Result<Value, Failure>))
    requires gens.Valid() && Cache.ValidState(st)
    ensures Cache.ValidState(r.0)
    ensures r.1 == Err(NoGenerator) <==> forall k :: k in gens.entries ==> !Plugins.CanHandle(gens.entries[k], path, node)
    ensures r.1 == Err(NoGenerator) ==> r.0 == st
  {
    match Registry.GetGenerator(gens, path, node)
    case None => (st, Err(NoGenerator))
    case Some(_) => Produce(st, UsesCache(st, path), Request(path, out.model, out.prompt, node), out)
  }

  /** `generate_file_content(path, fs_structure)`, with the registry given
      apart from the structure. */
  function GenerateFileContent(path: string, s: Nodes.Store, registry: Option<Registry.Generators>,
                               st: Cache.State, out: Outside): (r: (Cache.State, Result<Value, Failure>))
    requires Nodes.ValidStore(s) && Cache.ValidState(st)
    requires registry.Some? ==> registry.value.Valid()
    ensures Cache.ValidState(r.0)
    ensures registry.None? ==> r == (st, Err(NoRegistry))
    ensures registry.Some? && (path !in Visible(path, s).entries || !Convertible(Visible(path, s))) ==>
              r == (st, Err(ConversionFailed))
    ensures registry.Some? && path in Visible(path, s).entries && Convertible(Visible(path, s)) ==>
              r == Dispatch(registry.value, path, Visible(path, s).entries[path], st, out)
  {
    if registry.None? then (st, Err(NoRegistry))
    else
      var fs := Visible(path, s);
      if path !in fs.entries || !Convertible(fs) then (st, Err(ConversionFailed))
      else Dispatch(registry.value, path, fs.entries[path], st, out)
  }

  /** An ordinary file's generator sees the structure without the reserved
      tree; a file inside it sees everything. */
  lemma GeneratorsSeeFiltered(path: string, s: Nodes.Store)
    requires Nodes.ValidStore(s)
    ensures !Reserved(path) ==> forall p :: p in Visible(path, s).entries ==> !Reserved(p)
    ensures Reserved(path) ==> Visible(path, s) == s
  {
    FilterHidesReserved(s);
  }

  /** Files under the reserved directory never touch the cache: the answer
      is the generator's, and the cache and counters are left alone. */
  lemma ProcFilesBypassCache(st: Cache.State, path: string, node: Nodes.Node, out: Outside)
    requires Cache.ValidState(st)
    requires Text.StartsWith(path, Plugins.LlmfsDir)
    ensures var r := Produce(st, UsesCache(st, path), Request(path, out.model, out.prompt, node), out);
            r.0 == st && r.1 == if out.answer.Ok? then Ok(Str(out.answer.value)) else Err(GenerationFailed)
  {
  }

  /** With caching off every call generates, and no counter moves. */
  lemma DisabledAlwaysGenerates(st: Cache.State, path: string, node: Nodes.Node, out: Outside)
    requires Cache.ValidState(st) && !st.enabled
    ensures Produce(st, UsesCache(st, path), Request(path, out.model, out.prompt, node), out) ==
            (st, if out.answer.Ok? then Ok(Str(out.answer.value)) else Err(GenerationFailed))
  {
  }

  /** A non-empty cached answer is returned as it is, whatever the generator
      would have said: the generator is not consulted. */
  lemma HitSkipsGeneration(st: Cache.State, request: Value, out: Outside, other: Result<string, Nodes.Error>)
    requires Cache.ValidState(st) && request.Valid()
    requires var c := Cache.Get(st, out.codec, request).1; c.Some? && c.value.Truthy()
    ensures Produce(st, true, request, out) == Produce(st, true, request, out.(answer := other))
    ensures Produce(st, true, request, out).1 == Ok(Cache.Get(st, out.codec, request).1.value)
    ensures Produce(st, true, request, out).0.stats == CacheStats.IncrementHits(st.stats)
  {
  }

  /** A miss followed by a successful generation stores the answer. */
  lemma MissStores(st: Cache.State, request: Value, out: Outside)
    requires Cache.ValidState(st) && request.Valid()
    requires out.answer.Ok?
    requires var c := Cache.Get(st, out.codec, request).1; !(c.Some? && c.value.Truthy())
    ensures Produce(st, true, request, out).0 ==
            Cache.Put(Cache.Get(st, out.codec, request).0, out.codec, request, Str(out.answer.value), out.bytes)
  {
  }

  /** For an ordinary file with caching on, a generated answer is stored, so
      the next call for the same request is a hit with that answer. */
  lemma GeneratedThenHit(st: Cache.State, request: Value, out: Outside, later: Outside)
    requires Cache.ValidState(st) && request.Valid() && st.enabled
    requires out.answer.Ok? && out.answer.value != ""
    requires var c := Cache.Get(st, out.codec, request).1; !(c.Some? && c.value.Truthy())
    requires later.codec == out.codec
    ensures var st1 := Produce(st, true, request, out).0;
            Produce(st1, true, request, later).1 == Ok(Str(out.answer.value))
  {
    var mid := Cache.Get(st, out.codec, request).0;
    var st1 := Produce(st, true, request, out).0;
    MissStores(st, request, out);
    Cache.StoreThenLookup(mid, Cache.KeyOf(out.codec, request), request, Str(out.answer.value), out.bytes);
    assert Cache.Get(st1, later.codec, request).1 == Some(Str(out.answer.value));
    HitSkipsGeneration(st1, request, later, later.answer);
  }

  /** `generate_filesystem`'s post-processing: a generated structure loses its
      reserved tree unless the prompt is empty or starts with "internal:". */
  function FilterGenerated(prompt: string, data: Nodes.Store): (r: Nodes.Store)
    requires Nodes.ValidStore(data)
    ensures Nodes.ValidStore(r)
    ensures prompt == "" || Text.StartsWith(prompt, "internal:") ==> r == data
    ensures prompt != "" && !Text.StartsWith(prompt, "internal:") ==> r == FilterStore(data)
  {
    if prompt != "" && !Text.StartsWith(prompt, "internal:") then FilterStore(data) else data
  }
}
