/**
 The touchfs image plugin: which paths it claims, the description it derives
 from a file name, the file set it hashes for its cache key, and the
 decisions of `generate` around the two model calls.

 The chat and image API calls, the cache and SHA-256 are parameters
 (`Services`); the structured context text built from other files is not
 part of this model.
 */
module Image {
  import opened Wrappers
  import Text
  import Paths
  import Nodes
  import Plugins
  import Sorting
  import Utf8

  const Name := "image"
  const Extensions: set<string> := {".jpg", ".jpeg", ".png"}
  const CatPrompt := "A cute and friendly cat sitting in a sunny window"
  const SafePrefix := "A beautiful and safe image of "

  /** `can_handle`: the lower-cased extension is one of the supported ones;
      the node plays no part. */
  predicate CanHandle(path: string)
  {
    Text.Lower(Paths.Ext(path)) in Extensions
  }

  function Plugin(): (g: Plugins.Plugin)
    ensures Plugins.NameOf(g) == Name && Plugins.ProcFiles(g) == []
    ensures forall p, n :: Plugins.CanHandle(g, p, n) <==> CanHandle(p)
  {
    Plugins.Base(Name, Plugins.Own((p: string, n: Nodes.Node) => CanHandle(p), []))
  }

  /** Other extensions are refused. */
  lemma RefusesGif()
    ensures !CanHandle("/test/image.gif")
  {
    assert Paths.Basename("/test/image.gif") == "image.gif" by {
      assert "/test/image.gif"[5] == '/';
    }
    assert Paths.Ext("/test/image.gif") == ".gif" by {
      assert "image.gif"[5] == '.';
      assert "image.gif"[0] != '.';
    }
    assert Text.Lower(".gif")[1] == 'g';
    assert ".jpg"[1] == 'j' && ".png"[1] == 'p' && |".jpeg"| == 5;
  }

  // ---------------------------------------------------------------------
  // Prompts
  // ---------------------------------------------------------------------

  /** `os.path.splitext(os.path.basename(path))[0]`: the file name without
      its extension. */
  function FileRoot(path: string): (r: string)
    ensures r + Paths.Ext(path) == Paths.Basename(path)
  {
    var name := Paths.Basename(path);
    var e := Paths.Ext(path);
    if e == [] then name
    else
      assert Paths.EndsWith(name, e);
      name[..|name| - |e|]
  }

  /** How the description reads one character of the file name. */
  function Spaced(c: char): char
  {
    if c == '_' || c == '-' then ' ' else c
  }

  /** Underscores and dashes read as spaces. */
  function Describe(root: string): (r: string)
    ensures |r| == |root|
    ensures forall i :: 0 <= i < |r| ==> r[i] == Spaced(root[i])
  {
    var r := Text.ReplaceChar(Text.ReplaceChar(root, '_', ' '), '-', ' ');
    assert forall i :: 0 <= i < |r| ==> r[i] == Spaced(root[i]);
    r
  }

  /** The file name without its extension, as `Describe` reads it. */
  function FilenameDescription(path: string): string
  {
    Describe(FileRoot(path))
  }

  /** The stripped content of the prompt file the nearest-file search found,
      when it exists and has content. No self-reference check is made here. */
  function NearestPrompt(fs: Nodes.Store, nearest: Option<string>): (r: Option<string>)
    ensures r.Some? <==> nearest.Some? && |nearest.value| > 0 && nearest.value in fs.entries
                         && Nodes.Truthy(fs.entries[nearest.value].content)
    ensures r.Some? ==> r.value == Text.Strip(Nodes.TextOf(fs.entries[nearest.value].content))
  {
    if nearest.Some? && |nearest.value| > 0 && nearest.value in fs.entries
       && Nodes.Truthy(fs.entries[nearest.value].content)
    then Some(Text.Strip(Nodes.TextOf(fs.entries[nearest.value].content)))
    else None
  }

  /** The description part of `_generate_prompt`: a nearest prompt file wins;
      otherwise a name mentioning "cat" (in any case) gives a fixed sentence
      and any other name is wrapped in a safe phrasing. */
  function PromptDescription(path: string, fs: Nodes.Store, nearest: Option<string>): (r: string)
    ensures NearestPrompt(fs, nearest).Some? ==> r == NearestPrompt(fs, nearest).value
    ensures NearestPrompt(fs, nearest).None? && Text.Contains(Text.Lower(FilenameDescription(path)), "cat")
            ==> r == CatPrompt
    ensures NearestPrompt(fs, nearest).None? && !Text.Contains(Text.Lower(FilenameDescription(path)), "cat")
            ==> r == SafePrefix + FilenameDescription(path)
  {
    match NearestPrompt(fs, nearest)
    case Some(p) => p
    case None =>
      var base := FilenameDescription(path);
      if Text.Contains(Text.Lower(base), "cat") then CatPrompt else SafePrefix + base
  }

  /** The description `generate` itself sends: the nearest prompt file's
      text, else the file-name description without the "cat" rule. */
  function BasePrompt(path: string, fs: Nodes.Store, nearest: Option<string>): (r: string)
    ensures NearestPrompt(fs, nearest).Some? ==> r == NearestPrompt(fs, nearest).value
    ensures NearestPrompt(fs, nearest).None? ==> r == FilenameDescription(path)
  {
    match NearestPrompt(fs, nearest)
    case Some(p) => p
    case None => FilenameDescription(path)
  }

  // ---------------------------------------------------------------------
  // Filesystem hash
  // ---------------------------------------------------------------------

  /** A file that contributes to the filesystem hash. */
  predicate Hashed(path: string, fs: Nodes.Store, k: string)
  {
    k in fs.entries && k != path && Nodes.Truthy(fs.entries[k].content)
  }

  /** The paths of the files hashed, in the order the hash visits them. The
      code sorts every key and then skips the target and files without
      content; this sorts the kept keys, which gives the same sequence. */
  function HashedPaths(path: string, fs: Nodes.Store): (r: seq<string>)
    ensures forall k :: k in r <==> Hashed(path, fs, k)
    ensures forall i, j :: 0 <= i < j < |r| ==> Text.Less(r[i], r[j])
  {
    Sorting.SortedSet(set k | k in fs.entries && Hashed(path, fs, k))
  }

  /** What the filesystem hash is computed over: (path, content) pairs. */
  function HashInput(path: string, fs: Nodes.Store): (r: seq<(string, Nodes.Body)>)
    ensures |r| == |HashedPaths(path, fs)|
    ensures forall i :: 0 <= i < |r| ==> r[i].0 == HashedPaths(path, fs)[i] && Hashed(path, fs, r[i].0)
                                         && r[i].1 == fs.entries[r[i].0].content
  {
    var ks := HashedPaths(path, fs);
    assert forall i :: 0 <= i < |ks| ==> ks[i] in fs.entries by {
      forall i | 0 <= i < |ks| ensures ks[i] in fs.entries {
        assert ks[i] in ks;
      }
    }
    seq(|ks|, i requires 0 <= i < |ks| && ks[i] in fs.entries => (ks[i], fs.entries[ks[i]].content))
  }

  /** Two stores that agree on which other files have content, and on that
      content, hash the same, whatever the target holds and in whatever
      order keys were inserted. */
  lemma HashIgnoresTargetAndOrder(path: string, fs1: Nodes.Store, fs2: Nodes.Store)
    requires forall k :: Hashed(path, fs1, k) <==> Hashed(path, fs2, k)
    requires forall k :: Hashed(path, fs1, k) && Hashed(path, fs2, k) ==> fs1.entries[k].content == fs2.entries[k].content
    ensures HashInput(path, fs1) == HashInput(path, fs2)
  {
    assert (set k | k in fs1.entries && Hashed(path, fs1, k)) == (set k | k in fs2.entries && Hashed(path, fs2, k));
  }

  // ---------------------------------------------------------------------
  // Decoding the answer
  // ---------------------------------------------------------------------

  /** Base64 text padded with '=' to a length divisible by four. */
  function Pad(data: string): (r: string)
    ensures |r| % 4 == 0 && |data| <= |r|
    ensures r[..|data|] == data && |r| - |data| < 4
    ensures forall i :: |data| <= i < |r| ==> r[i] == '='
  {
    var rem := |data| % 4;
    if rem != 0 then data + Text.Repeat('=', 4 - rem) else data
  }

  /** Already padded data is left as it is, so padding is idempotent. */
  lemma PadIdempotent(data: string)
    ensures Pad(Pad(data)) == Pad(data)
    ensures |data| % 4 == 0 ==> Pad(data) == data
  {
  }

  /** The MIME type of a lower-cased extension; None where the lookup raises. */
  function Mime(ext: string): (r: Option<string>)
    ensures r.Some? <==> ext in Extensions
    ensures ext == ".png" ==> r == Some("image/png")
    ensures ext == ".jpg" || ext == ".jpeg" ==> r == Some("image/jpeg")
  {
    if ext == ".jpg" || ext == ".jpeg" then Some("image/jpeg")
    else if ext == ".png" then Some("image/png")
    else None
  }

  // ---------------------------------------------------------------------
  // generate
  // ---------------------------------------------------------------------

  /** The services `generate` calls. A `None` answer stands for a call that
      raised (or, for the image, returned no data). */
  datatype Services = Services(
    clientReady: bool,                                        // the OpenAI client was created
    cacheEnabled: bool,
    sha256: seq<(string, Nodes.Body)> -> string,              // hexdigest of the hashed files
    cached: (string, string) -> Option<seq<Utf8.byte>>,       // get_cached_response by (path, fs hash)
    summarise: string -> Option<string>,                      // the chat call, given the description
    image: string -> Option<string>,                          // b64_json of the image call
    b64decode: string -> Option<seq<Utf8.byte>>)

  /** What `generate` returns, the entry it caches and the prompt it
      records with `set_last_final_prompt`. */
  datatype ImageResult = ImageResult(
    content: Option<Nodes.Body>,
    stored: Option<(string, string, seq<Utf8.byte>)>,
    lastFinal: Option<string>)

  function Generate(path: string, node: Nodes.Node, fs: Nodes.Store, nearest: Option<string>, s: Services): (r: ImageResult)
    ensures Nodes.Truthy(node.content) ==> r == ImageResult(Some(node.content), None, None)
    ensures !Nodes.Truthy(node.content) && !s.clientReady ==> r == ImageResult(None, None, None)
    ensures !Nodes.Truthy(node.content) ==> r.content.None? || r.content.value.Bytes?
    ensures r.stored.Some? ==>
              && s.cacheEnabled
              && r.stored.value.0 == path
              && r.stored.value.1 == s.sha256(HashInput(path, fs))
              && r.content == Some(Nodes.Bytes(r.stored.value.2))
    ensures r.lastFinal.Some? ==> r.lastFinal == s.summarise(BasePrompt(path, fs, nearest))
  {
    if Nodes.Truthy(node.content) then ImageResult(Some(node.content), None, None)
    else if !s.clientReady then ImageResult(None, None, None)
    else
      var fsHash := s.sha256(HashInput(path, fs));
      var hit := if s.cacheEnabled then s.cached(path, fsHash) else None;
      if hit.Some? && |hit.value| > 0 then ImageResult(Some(Nodes.Bytes(hit.value)), None, None)
      else
        match s.summarise(BasePrompt(path, fs, nearest))
        case None => ImageResult(None, None, None)
        case Some(summary) =>
          Decode(path, fsHash, s.image(summary), s).(lastFinal := Some(summary))
  }

  /** The part of `generate` after the image call: padding, MIME lookup,
      decoding and caching. */
  function Decode(path: string, fsHash: string, answer: Option<string>, s: Services): (r: ImageResult)
    ensures r.lastFinal.None?
    ensures r.content.Some? <==>
              && answer.Some? && |answer.value| > 0
              && Mime(Text.Lower(Paths.Ext(path))).Some?
              && s.b64decode(Pad(answer.value)).Some?
    ensures r.content.Some? ==> r.content == Some(Nodes.Bytes(s.b64decode(Pad(answer.value)).value))
    ensures r.stored.Some? <==> r.content.Some? && s.cacheEnabled
    ensures r.stored.Some? ==> r.stored.value == (path, fsHash, r.content.value.bytes)
  {
    match answer
    case None => ImageResult(None, None, None)
    case Some(data) =>
      if |data| == 0 then ImageResult(None, None, None)
      else if Mime(Text.Lower(Paths.Ext(path))).None? then ImageResult(None, None, None)
      else
        match s.b64decode(Pad(data))
        case None => ImageResult(None, None, None)
        case Some(binary) =>
          ImageResult(Some(Nodes.Bytes(binary)), if s.cacheEnabled then Some((path, fsHash, binary)) else None, None)
  }

  /** With caching on, a non-empty cached image for the same path and
      filesystem hash is returned without calling either model. */
  lemma CacheHitSkipsModels(path: string, node: Nodes.Node, fs: Nodes.Store, nearest: Option<string>, s: Services)
    requires !Nodes.Truthy(node.content) && s.clientReady && s.cacheEnabled
    requires var c := s.cached(path, s.sha256(HashInput(path, fs))); c.Some? && |c.value| > 0
    ensures Generate(path, node, fs, nearest, s)
         == ImageResult(Some(Nodes.Bytes(s.cached(path, s.sha256(HashInput(path, fs))).value)), None, None)
  {
  }
}
