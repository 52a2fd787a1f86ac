/**
 Hit and miss counters of the response cache. Every cache lookup records
 exactly one event.
 */
module CacheStats {
  datatype Stats = Stats(hits: nat, misses: nat)

  /** Both counters start at zero. */
  const Initial: Stats := Stats(0, 0)

  datatype Event = Hit | Miss

  /** `increment_hits()`. */
  function IncrementHits(s: Stats): (r: Stats)
    ensures r.hits == s.hits + 1 && r.misses == s.misses
  {
    s.(hits := s.hits + 1)
  }

  /** `increment_misses()`. */
  function IncrementMisses(s: Stats): (r: Stats)
    ensures r.misses == s.misses + 1 && r.hits == s.hits
  {
    s.(misses := s.misses + 1)
  }

  /** `reset_stats()`: whatever was counted before is forgotten. */
  function Reset(s: Stats): (r: Stats)
    ensures r.hits == 0 && r.misses == 0
  {
    Initial
  }

  /** `get_stats()`: the pair `{"hits": ..., "misses": ...}`. */
  function Get(s: Stats): (r: (nat, nat))
    ensures r.0 == s.hits && r.1 == s.misses
  {
    (s.hits, s.misses)
  }

  function Record(s: Stats, e: Event): Stats
  {
    match e
    case Hit => IncrementHits(s)
    case Miss => IncrementMisses(s)
  }

  /** The counters after a run of lookups, first event first. */
  function Replay(s: Stats, events: seq<Event>): Stats
    decreases |events|
  {
    if |events| == 0 then s else Replay(Record(s, events[0]), events[1..])
  }

  /** After any run of lookups from a fresh start, the hits are the hit
      events and the misses the miss events. */
  lemma {:induction false} ReplayCounts(s: Stats, events: seq<Event>)
    ensures Replay(s, events).hits == s.hits + multiset(events)[Hit]
    ensures Replay(s, events).misses == s.misses + multiset(events)[Miss]
    decreases |events|
  {
    if |events| > 0 {
      assert events == [events[0]] + events[1..];
      ReplayCounts(Record(s, events[0]), events[1..]);
    }
  }

  /** Each lookup adds one to the total, so the total is the number of lookups. */
  lemma ReplayTotal(events: seq<Event>)
    ensures Replay(Initial, events).hits + Replay(Initial, events).misses == |events|
  {
    ReplayCounts(Initial, events);
    assert |multiset(events)| == multiset(events)[Hit] + multiset(events)[Miss] by {
      EventCount(events);
    }
  }

  lemma {:induction false} EventCount(events: seq<Event>)
    ensures |events| == multiset(events)[Hit] + multiset(events)[Miss]
    decreases |events|
  {
    if |events| > 0 {
      assert events == [events[0]] + events[1..];
      var m, rest := multiset(events), multiset(events[1..]);
      assert m == multiset{events[0]} + rest;
      EventCount(events[1..]);
      match events[0]
      case Hit => assert m[Hit] == rest[Hit] + 1 && m[Miss] == rest[Miss];
      case Miss => assert m[Miss] == rest[Miss] + 1 && m[Hit] == rest[Hit];
    }
  }
}

/**
 The file cache of generator answers. A request is serialised with sorted
 keys; the file name is the first 8 hex digits of its SHA-256 digest, an
 underscore, the first 40 characters of its URL-safe base64 encoding padded
 with '-' to 40, and ".json". The file holds `{"request": ..., "response": ...}`.
 Serialisation, hashing and base64 are foreign functions and appear as the
 parameters of a `Codec`.
 */
module Cache {
  import opened Wrappers
  import opened Dicts
  import Text
  import Paths
  import opened Values
  import opened CacheStats

  const EnvVar: string := "LLMFS_CACHE_FOLDER"
  const DefaultDirName: string := ".llmfs.cache"

  /** `get_cache_dir()`: the variable's value when it is set and non-empty,
      else `.llmfs.cache` in the home directory. */
  function CacheDir(env: Option<string>, home: string): (r: string)
    ensures env.Some? && env.value != "" ==> r == env.value
    ensures env.None? || env.value == "" ==> r == Paths.Join(home, DefaultDirName)
  {
    if env.Some? && env.value != "" then env.value else Paths.Join(home, DefaultDirName)
  }

  /** With the variable unset, the cache lives in `<home>/.llmfs.cache`. */
  lemma DefaultCacheDir(home: string)
    requires |home| > 0 && home[|home| - 1] != '/'
    ensures CacheDir(None, home) == home + "/.llmfs.cache"
    ensures CacheDir(Some(""), home) == home + "/.llmfs.cache"
  {
  }

  /** The foreign functions behind a file name: `json.dumps(.., sort_keys=True)`,
      `sha256(..).hexdigest()` and `urlsafe_b64encode(..)`. */
  datatype Codec = Codec(dumps: Value -> string, hexDigest: string -> string, b64: string -> string)

  /** `compute_cache_filename` given the digest and the encoding of the
      serialised request: the first 8 digits, and the encoding cut or padded
      with '-' to exactly 40 characters. */
  function NameParts(digest: string, encoded: string): (r: (string, string))
    ensures |r.0| <= |digest| && r.0 == digest[..|r.0|] && (|digest| >= 8 ==> |r.0| == 8)
    ensures |r.1| == 40
    ensures |encoded| >= 40 ==> r.1 == encoded[..40]
    ensures |encoded| < 40 ==> r.1[..|encoded|] == encoded && forall i :: |encoded| <= i < 40 ==> r.1[i] == '-'
  {
    (Text.Take(digest, 8), Text.LJust(Text.Take(encoded, 40), 40, '-'))
  }

  /** `f"{hash_prefix}_{safe_prompt}.json"`. */
  function FileName(parts: (string, string)): string
  {
    parts.0 + "_" + parts.1 + ".json"
  }

  /** The cache file name of a request: at most 8 leading digest digits,
      '_', 40 characters of the encoded request, ".json". */
  function KeyOf(c: Codec, request: Value): (r: string)
    ensures |r| >= 46 && Text.EndsWith(r, ".json") && r[|r| - 46] == '_'
    ensures var d := c.hexDigest(c.dumps(request)); |r| - 46 <= |d| && r[..|r| - 46] == d[..|r| - 46]
  {
    var text := c.dumps(request);
    FileName(NameParts(c.hexDigest(text), c.b64(text)))
  }

  /** A SHA-256 hex digest has 64 digits, so every file name has the same
      shape: 8 digits, '_', 40 characters, ".json". */
  lemma KeyShape(c: Codec, request: Value)
    requires |c.hexDigest(c.dumps(request))| == 64
    ensures |KeyOf(c, request)| == 8 + 1 + 40 + 5
    ensures KeyOf(c, request)[8] == '_'
    ensures KeyOf(c, request)[..8] == c.hexDigest(c.dumps(request))[..8]
    ensures Text.EndsWith(KeyOf(c, request), ".json")
  {
  }

  /** Two documents that differ only in the order of mapping keys. */
  predicate SameUpToKeyOrder(a: Value, b: Value)
    decreases a
  {
    match a
    case Map(fa) =>
      b.Map? && fa.entries.Keys == b.fields.entries.Keys
      && forall k :: k in fa.entries ==> SameUpToKeyOrder(fa.entries[k], b.fields.entries[k])
    case List(xs) =>
      b.List? && |xs| == |b.items| && forall i :: 0 <= i < |xs| ==> SameUpToKeyOrder(xs[i], b.items[i])
    case _ => a == b
  }

  /** What `sort_keys=True` promises of the serialiser. */
  ghost predicate SortsKeys(dumps: Value -> string)
  {
    forall a, b :: SameUpToKeyOrder(a, b) ==> dumps(a) == dumps(b)
  }

  /** The file name does not depend on the order in which the request's
      keys were inserted. */
  lemma KeyIgnoresKeyOrder(c: Codec, a: Value, b: Value)
    requires SortsKeys(c.dumps)
    requires SameUpToKeyOrder(a, b)
    ensures KeyOf(c, a) == KeyOf(c, b)
  {
  }

  /** A cache file: its parsed JSON document, or `None` when reading or
      parsing it fails; and its size in bytes. */
  datatype CacheFile = CacheFile(doc: Option<Value>, bytes: nat)

  /** The cache switch, the cache directory (absent, or its files by name)
      and the counters. */
  datatype State = State(enabled: bool, dir: Option<Dict<string, CacheFile>>, stats: Stats)

  ghost predicate ValidState(st: State)
  {
    st.dir.Some? ==> st.dir.value.Valid()
  }

  /** Python's `None` for JSON `null`. */
  function Present(v: Value): (r: Option<Value>)
    ensures r.None? <==> v.Null?
    ensures r.Some? ==> r.value == v
  {
    if v.Null? then None else Some(v)
  }

  /** What a loaded cache file answers: the "response" field of a mapping
      (None when it is missing), any other document as it is. */
  function Answer(doc: Value): (r: Option<Value>)
    ensures doc.Map? && doc.Field("response").None? ==> r.None?
    ensures doc.Map? && doc.Field("response").Some? ==> r == Present(doc.Field("response").value)
    ensures !doc.Map? ==> r == Present(doc)
  {
    if doc.Map? then
      match doc.Field("response")
      case None => None
      case Some(v) => Present(v)
    else Present(doc)
  }

  /** Whether a lookup of `name` finds a readable file. */
  predicate Readable(st: State, name: string)
  {
    && st.enabled && st.dir.Some?
    && st.dir.value.Get(name).Some? && st.dir.value.Get(name).value.doc.Some?
  }

  /** `get_cached_response` for the file `name`: a disabled cache, a missing
      directory, a missing file and an unreadable file are all misses with
      no answer; a readable file is a hit. Only the counters change. */
  function Lookup(st: State, name: string): (r: (State, Option<Value>))
    ensures r.0 == st.(stats := r.0.stats)
    ensures Readable(st, name) ==> r.0.stats == IncrementHits(st.stats)
    ensures !Readable(st, name) ==> r.0.stats == IncrementMisses(st.stats) && r.1 == None
    ensures Readable(st, name) ==> r.1 == Answer(st.dir.value.entries[name].doc.value)
  {
    if !st.enabled then (st.(stats := IncrementMisses(st.stats)), None)
    else if st.dir.None? then (st.(stats := IncrementMisses(st.stats)), None)
    else match st.dir.value.Get(name)
      case None => (st.(stats := IncrementMisses(st.stats)), None)
      case Some(f) =>
        match f.doc
        case None => (st.(stats := IncrementMisses(st.stats)), None)
        case Some(doc) => (st.(stats := IncrementHits(st.stats)), Answer(doc))
  }

  /** Every lookup bumps exactly one counter by one. */
  lemma LookupCountsOnce(st: State, name: string)
    ensures var s := Lookup(st, name).0.stats;
            s.hits + s.misses == st.stats.hits + st.stats.misses + 1
    ensures Lookup(st, name).1.Some? ==> Lookup(st, name).0.stats == IncrementHits(st.stats)
  {
  }

  /** A disabled cache answers nothing and counts a miss. */
  lemma DisabledMisses(st: State, name: string)
    requires !st.enabled
    ensures Lookup(st, name) == (st.(stats := IncrementMisses(st.stats)), None)
  {
  }

  /** The document `cache_response` writes. */
  function Entry(request: Value, response: Value): (r: Value)
    requires request.Valid() && response.Valid()
    ensures r.Valid() && r.Map?
    ensures r.Field("request") == Some(request) && r.Field("response") == Some(response)
  {
    ObjectField([("request", request), ("response", response)], 0);
    ObjectField([("request", request), ("response", response)], 1);
    Object([("request", request), ("response", response)])
  }

  /** `cache_response`: nothing when disabled; otherwise the directory is
      created if needed and the file `name` is (over)written with the request
      and the response, `bytes` being the length of the written text. */
  function Store(st: State, name: string, request: Value, response: Value, bytes: nat): (r: State)
    requires ValidState(st) && request.Valid() && response.Valid()
    ensures ValidState(r)
    ensures r.enabled == st.enabled && r.stats == st.stats
  {
    if !st.enabled then st
    else
      var d := if st.dir.Some? then st.dir.value else Empty();
      st.(dir := Some(d.Put(name, CacheFile(Some(Entry(request, response)), bytes))))
  }

  /** Storing on a disabled cache changes nothing. */
  lemma DisabledStoreNoOp(st: State, name: string, request: Value, response: Value, bytes: nat)
    requires ValidState(st) && request.Valid() && response.Valid()
    requires !st.enabled
    ensures Store(st, name, request, response, bytes) == st
  {
  }

  /** With caching enabled, a stored response is found again: the lookup is a
      hit and answers the response (None when the response is JSON null). */
  lemma StoreThenLookup(st: State, name: string, request: Value, response: Value, bytes: nat)
    requires ValidState(st) && request.Valid() && response.Valid()
    requires st.enabled
    ensures var s := Store(st, name, request, response, bytes);
            Lookup(s, name) == (s.(stats := IncrementHits(st.stats)), Present(response))
  {
    var s := Store(st, name, request, response, bytes);
    assert s.dir.value.Get(name) == Some(CacheFile(Some(Entry(request, response)), bytes));
  }

  /** Storing one file leaves the lookups of every other file as they were. */
  lemma StoreKeepsOthers(st: State, name: string, other: string, request: Value, response: Value, bytes: nat)
    requires ValidState(st) && request.Valid() && response.Valid()
    requires st.dir.Some? && name != other
    ensures Lookup(Store(st, name, request, response, bytes), other).1 == Lookup(st, other).1
  {
  }

  /** `get_cached_response(request)` and `cache_response(request, response)`. */
  function Get(st: State, c: Codec, request: Value): (r: (State, Option<Value>))
    ensures r == Lookup(st, KeyOf(c, request))
  {
    Lookup(st, KeyOf(c, request))
  }

  function Put(st: State, c: Codec, request: Value, response: Value, bytes: nat): (r: State)
    requires ValidState(st) && request.Valid() && response.Valid()
    ensures ValidState(r)
  {
    Store(st, KeyOf(c, request), request, response, bytes)
  }

  /** The round trip through the codec: a response cached for a request is
      returned for that request, and for any request that serialises alike. */
  lemma PutThenGet(st: State, c: Codec, request: Value, again: Value, response: Value, bytes: nat)
    requires ValidState(st) && request.Valid() && response.Valid()
    requires st.enabled && SortsKeys(c.dumps) && SameUpToKeyOrder(request, again)
    ensures Get(Put(st, c, request, response, bytes), c, again).1 == Present(response)
  {
    KeyIgnoresKeyOrder(c, request, again);
    StoreThenLookup(st, KeyOf(c, request), request, response, bytes);
  }
}
