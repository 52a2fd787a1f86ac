/**
 The cache-control proc files of the older package: `/.llmfs/cache_enabled`
 switches the cache on ("1") and off ("0"), `cache_stats` reports the
 counters, the cache size and the switch, `cache_clear` deletes the cached
 files when "1" is written to it, and `cache_list` lists them.
 */
module CacheControl {
  import opened Wrappers
  import opened Dicts
  import Text
  import Paths
  import PurePath
  import Numerals
  import Sorting
  import Plugins
  import Nodes
  import opened CacheStats
  import opened Cache

  const ControlName: string := "cache_control"
  const ProcPaths: seq<string> := ["cache_enabled", "cache_stats", "cache_clear", "cache_list"]

  /** The plugin: one proc file per path in the reserved directory. */
  const Control: Plugins.Plugin := Plugins.Base(ControlName, Plugins.MultiProc(Plugins.LlmfsDir, ProcPaths))

  /** The plugin provides exactly the four control files, in order, and
      claims exactly those paths. */
  lemma ControlFiles(path: string, node: Nodes.Node)
    ensures |Plugins.ProcFiles(Control)| == 4
    ensures forall i :: 0 <= i < 4 ==> Plugins.ProcFiles(Control)[i].path == Plugins.LlmfsDir + ProcPaths[i]
    ensures Plugins.CanHandle(Control, path, node) <==> exists i :: 0 <= i < 4 && path == Plugins.LlmfsDir + ProcPaths[i]
  {
    Plugins.ProcFilesAtPaths(Plugins.LlmfsDir, ProcPaths, ControlName);
    Plugins.AnyProcPathIff(Plugins.LlmfsDir, ProcPaths, path);
  }

  /** The names `glob("*.json")` yields, in directory order. */
  function JsonNames(names: seq<string>): (r: seq<string>)
    ensures forall n :: n in r <==> n in names && Text.EndsWith(n, ".json")
    ensures |r| <= |names|
  {
    if |names| == 0 then []
    else if Text.EndsWith(names[0], ".json") then [names[0]] + JsonNames(names[1..])
    else JsonNames(names[1..])
  }

  /** The JSON files of the cache directory, none when it is absent. */
  function CacheFiles(st: State): (r: seq<string>)
    ensures st.dir.None? ==> r == []
  {
    if st.dir.Some? then JsonNames(st.dir.value.keys) else []
  }

  function BytesOf(d: Dict<string, CacheFile>, name: string): nat
  {
    match d.Get(name)
    case Some(f) => f.bytes
    case None => 0
  }

  function SumBytes(d: Dict<string, CacheFile>, names: seq<string>): nat
  {
    if |names| == 0 then 0 else BytesOf(d, names[0]) + SumBytes(d, names[1..])
  }

  /** `_get_cache_size()`: the total size of the JSON files. */
  function CacheSize(st: State): (r: nat)
    ensures st.dir.None? ==> r == 0
  {
    if st.dir.Some? then SumBytes(st.dir.value, CacheFiles(st)) else 0
  }

  /** Adding up no files gives nothing. */
  lemma EmptyCacheHasNoSize(st: State)
    requires CacheFiles(st) == []
    ensures CacheSize(st) == 0
  {
  }

  /** `_clear_cache()`: every JSON file of an existing directory is deleted;
      other files, the switch and the counters stay. */
  function ClearCache(st: State): (r: State)
    requires ValidState(st)
    ensures ValidState(r)
    ensures r.enabled == st.enabled && r.stats == st.stats
    ensures st.dir.None? ==> r == st
    ensures st.dir.Some? ==> r.dir.Some?
    ensures st.dir.Some? ==> forall n :: r.dir.value.Get(n) == if Text.EndsWith(n, ".json") then None else st.dir.value.Get(n)
  {
    if st.dir.None? then st
    else st.(dir := Some(RemoveAll(st.dir.value, CacheFiles(st))))
  }

  lemma NoJsonNames(names: seq<string>)
    requires forall n :: n in names ==> !Text.EndsWith(n, ".json")
    ensures JsonNames(names) == []
  {
  }

  /** After clearing, no JSON file is left. */
  lemma ClearLeavesNoJson(st: State)
    requires ValidState(st)
    ensures CacheFiles(ClearCache(st)) == []
  {
    var r := ClearCache(st);
    if st.dir.Some? {
      var d := r.dir.value;
      forall n | n in d.keys
        ensures !Text.EndsWith(n, ".json")
      {
        assert d.Get(n).Some?;
      }
      NoJsonNames(d.keys);
    }
  }

  /** One line of the listing: the file's stem and size. */
  function ListLine(d: Dict<string, CacheFile>, name: string): string
  {
    PurePath.Stem(name) + " (" + Numerals.NatToString(BytesOf(d, name)) + " bytes)"
  }

  /** A cache file `<key>.json` is listed under its key. */
  lemma ListLineOfKey(d: Dict<string, CacheFile>, key: string)
    requires key != "" && '.' !in key && '/' !in key
    ensures ListLine(d, key + ".json") == key + " (" + Numerals.NatToString(BytesOf(d, key + ".json")) + " bytes)"
  {
    var name := key + ".json";
    assert name[|key|..] == ".json";
    assert forall i :: 0 <= i < |name| ==> name[i] != '/';
    PurePath.NameOfPlain(name);
    assert name[|key|] == '.';
    assert forall i :: |key| < i < |name| ==> name[i] != '.';
    assert Paths.SuffixStart(name) == |key|;
    assert name[..|key|] == key;
  }

  function ListLinesOf(d: Dict<string, CacheFile>, names: seq<string>): (r: seq<string>)
    ensures |r| == |names|
    ensures forall i :: 0 <= i < |names| ==> r[i] == ListLine(d, names[i])
  {
    if |names| == 0 then [] else [ListLine(d, names[0])] + ListLinesOf(d, names[1..])
  }

  /** The JSON files in sorted order, as `sorted(glob("*.json"))` visits them. */
  function SortedFiles(st: State): (r: seq<string>)
    ensures multiset(r) == multiset(CacheFiles(st))
    ensures forall i, j :: 0 <= i < j < |r| ==> Text.LessEq(r[i], r[j])
  {
    Sorting.SortStrings(CacheFiles(st))
  }

  /** The listing lines, one per JSON file, in sorted file order. */
  function ListLines(st: State): (r: seq<string>)
    ensures |r| == |CacheFiles(st)|
    ensures st.dir.Some? ==> forall i :: 0 <= i < |r| ==> r[i] == ListLine(st.dir.value, SortedFiles(st)[i])
  {
    if st.dir.Some? then ListLinesOf(st.dir.value, SortedFiles(st)) else []
  }

  /** `_list_cache()`: "Cache empty" for no files, else the lines joined by
      newlines with a final newline. */
  function ListCache(st: State): (r: string)
    ensures CacheFiles(st) == [] ==> r == "Cache empty\n"
    ensures CacheFiles(st) != [] ==> r == Text.Join(ListLines(st), "\n") + "\n"
  {
    var lines := ListLines(st);
    if |lines| == 0 then "Cache empty\n" else Text.Join(lines, "\n") + "\n"
  }

  /** Python's `str(b)` for a bool. */
  function BoolText(b: bool): string
  {
    if b then "True" else "False"
  }

  /** The four lines of `cache_stats`, the last followed by a newline. */
  function StatsLines(st: State): (r: seq<string>)
  {
    [ "Hits: " + Numerals.NatToString(st.stats.hits),
      "Misses: " + Numerals.NatToString(st.stats.misses),
      "Size: " + Numerals.NatToString(CacheSize(st)) + " bytes",
      "Enabled: " + BoolText(st.enabled),
      "" ]
  }

  function StatsText(st: State): string
  {
    Text.Join(StatsLines(st), "\n")
  }

  lemma DigitsNoNewline(s: string)
    requires Numerals.AllDigits(s)
    ensures '\n' !in s
  {
    assert forall i :: 0 <= i < |s| ==> s[i] != '\n';
  }

  /** `cache_stats` reads back line by line as the hit count, the miss count,
      the size of the JSON files and the switch. */
  lemma StatsReadBack(st: State)
    ensures Text.Split(StatsText(st), '\n') ==
            [ "Hits: " + Numerals.NatToString(st.stats.hits),
              "Misses: " + Numerals.NatToString(st.stats.misses),
              "Size: " + Numerals.NatToString(CacheSize(st)) + " bytes",
              "Enabled: " + (if st.enabled then "True" else "False"),
              "" ]
  {
    var ls := StatsLines(st);
    DigitsNoNewline(Numerals.NatToString(st.stats.hits));
    DigitsNoNewline(Numerals.NatToString(st.stats.misses));
    DigitsNoNewline(Numerals.NatToString(CacheSize(st)));
    assert forall i :: 0 <= i < |ls| ==> '\n' !in ls[i];
    Text.SplitJoin(ls, '\n');
  }

  /** The `cache_enabled` file: written "1" or "0" (surrounding white space
      ignored) switches the cache; anything else, including no content, keeps
      it; the answer is the switch after the write. */
  function EnabledFile(st: State, content: string): (r: (State, string))
    ensures r.0.dir == st.dir && r.0.stats == st.stats
    ensures Text.Strip(content) == "1" ==> r.0.enabled
    ensures Text.Strip(content) == "0" ==> !r.0.enabled
    ensures Text.Strip(content) != "1" && Text.Strip(content) != "0" ==> r.0 == st
    ensures r.1 == "1\n" || r.1 == "0\n"
    ensures r.1 == "1\n" <==> r.0.enabled
  {
    var next :=
      if content == "" then st
      else
        var value := Text.Strip(content);
        if value == "1" then st.(enabled := true)
        else if value == "0" then st.(enabled := false)
        else st;
    (next, if next.enabled then "1\n" else "0\n")
  }

  /** The `cache_clear` file: stripped content "1" clears; the answer is fixed. */
  function ClearFile(st: State, content: string): (r: (State, string))
    requires ValidState(st)
    ensures r.1 == "Write 1 to clear cache\n"
    ensures Text.Strip(content) == "1" ==> r.0 == ClearCache(st)
    ensures Text.Strip(content) != "1" ==> r.0 == st
  {
    (if content != "" && Text.Strip(content) == "1" then ClearCache(st) else st, "Write 1 to clear cache\n")
  }

  /** `generate(path, node, fs)` with the node's content (no content counts as
      ""): the proc path is the path with every "/.llmfs/" removed. */
  function Generate(st: State, path: string, content: string): (r: (State, string))
    requires ValidState(st)
    ensures ValidState(r.0)
    ensures r.0.stats == st.stats
  {
    var proc := Text.ReplaceAll(path, Plugins.LlmfsDir, "");
    if proc == "cache_enabled" then EnabledFile(st, content)
    else if proc == "cache_stats" then (st, StatsText(st))
    else if proc == "cache_clear" then ClearFile(st, content)
    else if proc == "cache_list" then (st, ListCache(st))
    else (st, "")
  }

  /** Replacing a leading occurrence of a pattern the rest does not contain. */
  lemma ReplaceLeading(pat: string, rest: string, rep: string)
    requires |pat| > 0 && !Text.Contains(rest, pat)
    ensures Text.ReplaceAll(pat + rest, pat, rep) == rep + rest
  {
    var s := pat + rest;
    assert Text.StartsWith(s, pat);
    assert s[|pat|..] == rest;
  }

  /** A string without the first character of a pattern does not contain it. */
  lemma MissingFirstChar(s: string, pat: string)
    requires |pat| > 0 && pat[0] !in s
    ensures !Text.Contains(s, pat)
  {
    assert forall i :: 0 <= i < |s| ==> s[i..][0] == s[i];
  }

  /** Removing the reserved directory from the front of a name without
      slashes gives the name back. */
  lemma StripReservedDir(name: string)
    requires '/' !in name
    ensures Text.ReplaceAll(Plugins.LlmfsDir + name, Plugins.LlmfsDir, "") == name
  {
    MissingFirstChar(name, Plugins.LlmfsDir);
    ReplaceLeading(Plugins.LlmfsDir, name, "");
  }

  /** Each control file answers through its own handler; any other path
      answers "" and changes nothing. */
  lemma Dispatch(st: State, content: string, name: string)
    requires ValidState(st)
    requires '/' !in name
    ensures name == "cache_enabled" ==> Generate(st, Plugins.LlmfsDir + name, content) == EnabledFile(st, content)
    ensures name == "cache_stats" ==> Generate(st, Plugins.LlmfsDir + name, content) == (st, StatsText(st))
    ensures name == "cache_clear" ==> Generate(st, Plugins.LlmfsDir + name, content) == ClearFile(st, content)
    ensures name == "cache_list" ==> Generate(st, Plugins.LlmfsDir + name, content) == (st, ListCache(st))
    ensures name !in ProcPaths ==> Generate(st, Plugins.LlmfsDir + name, content) == (st, "")
  {
    StripReservedDir(name);
  }

  lemma StripOne()
    ensures Text.Strip("1") == "1"
  {
    assert !Text.IsSpace('1');
    assert Text.LStrip("1") == "1";
  }

  /** Writing "1" to `cache_clear` and then reading `cache_list` shows an
      empty cache. */
  lemma ClearThenList(st: State)
    requires ValidState(st)
    ensures var after := ClearFile(st, "1").0;
            ListCache(after) == "Cache empty\n" && CacheSize(after) == 0
  {
    StripOne();
    var after := ClearFile(st, "1").0;
    assert after == ClearCache(st);
    ClearLeavesNoJson(st);
    assert CacheFiles(after) == [];
    EmptyCacheHasNoSize(after);
  }
}
