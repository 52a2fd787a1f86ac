/**
 The llmfs context builder: resources are measured by their JSON rendering
 against a token budget, ordered by a key that puts the top-level
 `__init__.py`, `__main__.py` and `setup.py` first, then nested files by
 directory, then the other top-level files, and rendered as fenced blocks
 under a four-line header. `build_context` collects the `.py` files of a
 directory walk and feeds them in until one does not fit.

 Token counting (tiktoken) and `json.dumps(resource, indent=2)` are parameters.
 */
module LlmfsContext {
  import opened Wrappers
  import Nodes
  import Text
  import Utf8
  import Numerals
  import PurePath
  import Sorting
  import ContextWalk

  /** The budget `ContextBuilder()` and `build_context` use when none is given. */
  const DefaultMaxTokens: int := 8000

  /** The metadata and content of one accepted file; `uri` and `type` follow
      from the path and are not stored. */
  datatype Resource = Resource(path: string, extension: string, filename: string, content: string)

  datatype Builder = Builder(maxTokens: int, current: int, parts: seq<Resource>)

  /** The token counter. */
  type Counter = string -> nat

  /** `json.dumps(resource, indent=2)`. */
  type Dumper = Resource -> string

  function NewBuilder(maxTokens: int): (b: Builder)
    ensures b.maxTokens == maxTokens && b.current == 0 && b.parts == []
  {
    Builder(maxTokens, 0, [])
  }

  /** `would_exceed_token_limit(text)`. */
  predicate WouldExceed(b: Builder, count: Counter, text: string)
  {
    b.current + count(text) > b.maxTokens
  }

  /** The resource `add_file_content(path, content)` builds. */
  function MakeResource(path: string, content: string): (r: Resource)
    ensures r.path == path && r.content == content
    ensures r.extension == PurePath.Suffix(path) && r.filename == PurePath.Name(path)
  {
    Resource(path, PurePath.Suffix(path), PurePath.Name(path), content)
  }

  /** The budget check of `add_file_content` and its bookkeeping: the builder
      after the call and the value returned. */
  function Offer(b: Builder, res: Resource, count: Counter, dumps: Dumper): (r: (Builder, bool))
    ensures r.0.maxTokens == b.maxTokens
    ensures !r.1 ==> r.0 == b
    ensures r.1 ==> r.0.parts == b.parts + [res]
    ensures r.1 ==> r.0.current <= r.0.maxTokens
  {
    var f := dumps(res);
    if WouldExceed(b, count, f) then (b, false)
    else (Builder(b.maxTokens, b.current + count(f), b.parts + [res]), true)
  }

  /** `add_file_content(path, content)`. */
  function AddFileContent(b: Builder, path: string, content: string, count: Counter, dumps: Dumper): (r: (Builder, bool))
    ensures r.0.maxTokens == b.maxTokens
    ensures !r.1 ==> r.0 == b
    ensures r.1 ==> r.0.parts == b.parts + [MakeResource(path, content)]
    ensures r.1 ==> r.0.current <= r.0.maxTokens
  {
    Offer(b, MakeResource(path, content), count, dumps)
  }

  /** The tokens of the JSON renderings of some resources. */
  function Spent(parts: seq<Resource>, count: Counter, dumps: Dumper): int
  {
    if |parts| == 0 then 0
    else Spent(parts[..|parts| - 1], count, dumps) + count(dumps(parts[|parts| - 1]))
  }

  /** The running total is the tokens of the accepted resources. */
  predicate Accounted(b: Builder, count: Counter, dumps: Dumper)
  {
    b.current == Spent(b.parts, count, dumps)
  }

  /** An offer is accepted exactly when the JSON rendering fits in what is
      left of the budget. */
  lemma OfferAcceptsIffFits(b: Builder, res: Resource, count: Counter, dumps: Dumper)
    ensures Offer(b, res, count, dumps).1 <==> b.current + count(dumps(res)) <= b.maxTokens
  {
  }

  /** Accepting a resource keeps the running total equal to the tokens of the
      accepted resources. */
  lemma OfferKeepsAccounted(b: Builder, res: Resource, count: Counter, dumps: Dumper)
    requires Accounted(b, count, dumps)
    ensures Accounted(Offer(b, res, count, dumps).0, count, dumps)
  {
    var r := Offer(b, res, count, dumps);
    if r.1 {
      assert r.0.parts[..|r.0.parts| - 1] == b.parts;
    }
  }

  /** A builder within budget stays within budget whatever is offered. */
  lemma OfferKeepsBudget(b: Builder, res: Resource, count: Counter, dumps: Dumper)
    requires 0 <= b.current <= b.maxTokens
    ensures var r := Offer(b, res, count, dumps).0;
            0 <= r.current <= r.maxTokens
  {
  }

  // ---------------------------------------------------------------------------
  // Sort key

  /** `_sort_path_key` on the parts of a path; `None` when there are none,
      where `parts[-1]` raises `IndexError`. */
  function KeyOf(parts: seq<string>): (k: Option<Sorting.Key>)
    ensures k.None? <==> |parts| == 0
  {
    if |parts| == 0 then None
    else
      var filename := parts[|parts| - 1];
      if |parts| == 1 then
        if filename == "__init__.py" then Some([Sorting.AInt(0), Sorting.AInt(0), Sorting.ATup(parts)])
        else if filename == "__main__.py" then Some([Sorting.AInt(0), Sorting.AInt(1), Sorting.ATup(parts)])
        else if filename == "setup.py" then Some([Sorting.AInt(0), Sorting.AInt(2), Sorting.ATup(parts)])
        else Some([Sorting.AInt(2), Sorting.AInt(0), Sorting.ATup(parts)])
      else
        var dirs := parts[..|parts| - 1];
        Some([Sorting.AInt(1), Sorting.ATup(dirs), Sorting.AInt(if filename == "__init__.py" then 0 else 1), Sorting.ATup(parts)])
  }

  function SortKey(path: string): Option<Sorting.Key>
  {
    KeyOf(PurePath.Parts(path))
  }

  /** The group a key puts a file in: 0 for the special top-level files, 1 for
      nested files, 2 for the other top-level files. */
  function Group(parts: seq<string>): (g: int)
    requires |parts| > 0
    ensures g == 0 <==> |parts| == 1 && parts[0] in {"__init__.py", "__main__.py", "setup.py"}
    ensures g == 1 <==> |parts| > 1
  {
    KeyOf(parts).value[0].i
  }

  /** Files of a lower group come first. */
  lemma GroupOrder(a: seq<string>, b: seq<string>)
    requires |a| > 0 && |b| > 0 && Group(a) < Group(b)
    ensures Sorting.KeyLess(KeyOf(a).value, KeyOf(b).value)
  {
  }

  /** The special top-level files come in the order `__init__.py`,
      `__main__.py`, `setup.py`. */
  lemma SpecialTopLevelOrder()
    ensures Sorting.KeyLess(KeyOf(["__init__.py"]).value, KeyOf(["__main__.py"]).value)
    ensures Sorting.KeyLess(KeyOf(["__main__.py"]).value, KeyOf(["setup.py"]).value)
  {
  }

  /** In one directory, `__init__.py` comes before every other file. */
  lemma NestedInitFirst(dirs: seq<string>, name: string)
    requires |dirs| > 0 && name != "__init__.py"
    ensures Sorting.KeyLess(KeyOf(dirs + ["__init__.py"]).value, KeyOf(dirs + [name]).value)
  {
    var a := dirs + ["__init__.py"];
    var b := dirs + [name];
    assert a[..|a| - 1] == dirs && b[..|b| - 1] == dirs;
    var ka := KeyOf(a).value;
    var kb := KeyOf(b).value;
    Sorting.AtomLessStrictTotal();
    assert ka[0] == kb[0] && ka[1] == kb[1];
    assert ka[1..][1..] == ka[2..] && kb[1..][1..] == kb[2..];
    assert Sorting.AtomLess(ka[2], kb[2]);
    assert Sorting.KeyLess(ka[2..], kb[2..]);
    assert !Sorting.AtomLess(ka[1], kb[1]);
    assert Sorting.KeyLess(ka[1..], kb[1..]);
  }

  /** An absolute path with components is never top-level: its anchor is a
      part of its own, so every file `build_context` sorts is in the nested group. */
  lemma AbsoluteIsNested(p: string)
    requires PurePath.Anchor(p) != "" && PurePath.Tail(p) != []
    ensures |PurePath.Parts(p)| > 1 && Group(PurePath.Parts(p)) == 1
  {
  }

  // ---------------------------------------------------------------------------
  // build

  /** What the output holds, piece by piece: module headers and files. */
  datatype Piece = ModuleHeader(name: string) | FileEntry(res: Resource)

  /** The header a file of module `m` gets after one of module `current`:
      one when the module changes, unless it is "." or "". */
  function Lead(m: string, current: Option<string>): (r: seq<Piece>)
    ensures r == [] || r == [ModuleHeader(m)]
  {
    if current != Some(m) && m != "" && m != "." then [ModuleHeader(m)] else []
  }

  /** The pieces for resources in output order, given the module of the
      previous resource. */
  function Emit(rs: seq<Resource>, current: Option<string>): seq<Piece>
  {
    if |rs| == 0 then []
    else
      var m := PurePath.Parent(rs[0].path);
      Lead(m, current) + [FileEntry(rs[0])] + Emit(rs[1..], Some(m))
  }

  /** The files among some pieces, in order. */
  function Files(ps: seq<Piece>): seq<Resource>
  {
    if |ps| == 0 then []
    else (if ps[0].FileEntry? then [ps[0].res] else []) + Files(ps[1..])
  }

  lemma {:induction false} FilesAppend(a: seq<Piece>, b: seq<Piece>)
    ensures Files(a + b) == Files(a) + Files(b)
    decreases |a|
  {
    if |a| == 0 {
      assert a + b == b;
    } else {
      assert (a + b)[1..] == a[1..] + b && (a + b)[0] == a[0];
      FilesAppend(a[1..], b);
      var h := if a[0].FileEntry? then [a[0].res] else [];
      assert Files(a + b) == h + Files(a[1..] + b);
      assert Files(a) == h + Files(a[1..]);
    }
  }

  /** Every resource is emitted once, in order, whatever headers come between. */
  lemma {:induction false} EmitFiles(rs: seq<Resource>, current: Option<string>)
    ensures Files(Emit(rs, current)) == rs
    decreases |rs|
  {
    if |rs| > 0 {
      var m := PurePath.Parent(rs[0].path);
      var head := Lead(m, current);
      EmitFiles(rs[1..], Some(m));
      FilesAppend(head + [FileEntry(rs[0])], Emit(rs[1..], Some(m)));
      FilesAppend(head, [FileEntry(rs[0])]);
      assert Files([FileEntry(rs[0])]) == [rs[0]];
      assert Files(head) == [];
      assert [rs[0]] + rs[1..] == rs;
    }
  }

  /** Every module header names the parent of some resource, and never ".". */
  lemma {:induction false} EmitHeaders(rs: seq<Resource>, current: Option<string>, m: string)
    requires ModuleHeader(m) in Emit(rs, current)
    ensures m != "." && m != ""
    ensures exists i :: 0 <= i < |rs| && PurePath.Parent(rs[i].path) == m
    decreases |rs|
  {
    var p := PurePath.Parent(rs[0].path);
    var head := Lead(p, current);
    assert Emit(rs, current) == head + [FileEntry(rs[0])] + Emit(rs[1..], Some(p));
    if ModuleHeader(m) in Emit(rs[1..], Some(p)) {
      EmitHeaders(rs[1..], Some(p), m);
      var i :| 0 <= i < |rs[1..]| && PurePath.Parent(rs[1..][i].path) == m;
      assert rs[i + 1] == rs[1..][i];
    } else {
      assert ModuleHeader(m) in head;
    }
  }

  /** The "Type:" label: the extension without its dot, or "unknown". */
  function TypeLabel(extension: string): string
  {
    if extension == "" then "unknown" else extension[1..]
  }

  /** The lines of one piece. */
  function PieceLines(p: Piece): (r: seq<string>)
    ensures p.FileEntry? ==> |r| == 6 && r[0] == "# File: " + p.res.path && r[5] == ""
    ensures p.ModuleHeader? ==> r == ["\n# Module: " + p.name + "\n"]
  {
    match p
    case ModuleHeader(m) => ["\n# Module: " + m + "\n"]
    case FileEntry(r) => ["# File: " + r.path, "Type: " + TypeLabel(r.extension), "```", Text.RStrip(r.content), "```", ""]
  }

  function Lines(ps: seq<Piece>): seq<string>
  {
    if |ps| == 0 then [] else PieceLines(ps[0]) + Lines(ps[1..])
  }

  /** The header lines of `build`. */
  function Header(b: Builder): (r: seq<string>)
    ensures |r| == 5
  {
    ["# Context Information",
     "Total Files: " + Numerals.IntToString(|b.parts|),
     "Token Count: " + Numerals.IntToString(b.current),
     "Token Limit: " + Numerals.IntToString(b.maxTokens),
     ""]
  }

  /** The key a resource is sorted by; every key is defined when `build` gets
      this far. */
  function ResourceKey(r: Resource): Sorting.Key
  {
    SortKey(r.path).GetOr([])
  }

  /** `build()`, as its lines: `IndexError` when some resource's path has no
      parts, since `sorted` computes every key first. */
  function BuildLines(b: Builder): (r: Result<seq<string>, Nodes.Error>)
    ensures r.Err? <==> exists i :: 0 <= i < |b.parts| && PurePath.Parts(b.parts[i].path) == []
    ensures r.Err? ==> r.error == Nodes.IndexError
    ensures r.Ok? ==> |r.value| >= 5 && r.value[..5] == Header(b)
  {
    if exists i :: 0 <= i < |b.parts| && PurePath.Parts(b.parts[i].path) == [] then Err(Nodes.IndexError)
    else
      var lines := Header(b) + Lines(Emit(Sorting.SortBy(b.parts, ResourceKey), None));
      assert lines[..5] == Header(b);
      Ok(lines)
  }

  /** `build()`. */
  function Build(b: Builder): (r: Result<string, Nodes.Error>)
    ensures r.Err? <==> BuildLines(b).Err?
    ensures r.Ok? ==> r.value == Text.Join(BuildLines(b).value, "\n")
  {
    match BuildLines(b)
    case Err(e) => Err(e)
    case Ok(lines) => Ok(Text.Join(lines, "\n"))
  }

  /** The rendered files are the builder's resources, sorted by key. */
  lemma BuildOrder(b: Builder)
    requires BuildLines(b).Ok?
    ensures var sorted := Sorting.SortBy(b.parts, ResourceKey);
            && multiset(sorted) == multiset(b.parts)
            && Sorting.SortedBy(sorted, ResourceKey)
            && Files(Emit(sorted, None)) == sorted
  {
    EmitFiles(Sorting.SortBy(b.parts, ResourceKey), None);
  }

  // ---------------------------------------------------------------------------
  // build_context

  /** The rewrite `build_context` applies to the text of an `__init__.py`. */
  function FixImports(content: string): (r: string)
    ensures (!Text.Contains(content, "ContextBuilder build_context")
             && !Text.Contains(content, "'ContextBuilder' 'build_context'")) ==> r == content
  {
    var once := Text.ReplaceAll(content, "ContextBuilder build_context", "ContextBuilder, build_context");
    Text.ReplaceAll(once, "'ContextBuilder' 'build_context'", "'ContextBuilder', 'build_context'")
  }

  /** Text without either broken import is left alone. */
  lemma FixImportsClean(content: string)
    requires !Text.Contains(content, "ContextBuilder build_context")
    requires !Text.Contains(content, "'ContextBuilder' 'build_context'")
    ensures FixImports(content) == content
  {
  }

  /** `os.path.relpath(path, directory)` for a path under the directory. */
  function Rel(dir: string, path: string): string
  {
    var pre := if Text.EndsWith(dir, "/") then dir else dir + "/";
    if Text.StartsWith(path, pre) then path[|pre|..] else path
  }

  /** The resource a file of the walk is offered as; nothing when reading it
      fails (the error is reported and the file skipped). The file is read in
      text mode, so its line ends read as "\n". Only files named
      `__init__.py` have their imports rewritten. */
  function Prepare(dir: string, f: (string, Option<seq<Utf8.byte>>)): (r: Option<Resource>)
    ensures r.None? <==> f.1.None? || Utf8.Decode(f.1.value).None?
    ensures r.Some? ==> r.value.path == Rel(dir, f.0)
    ensures r.Some? && PurePath.Name(f.0) != "__init__.py" ==>
              r.value.content == Text.Universal(Utf8.Decode(f.1.value).value)
    ensures r.Some? && PurePath.Name(f.0) == "__init__.py" ==>
              r.value.content == FixImports(Text.Universal(Utf8.Decode(f.1.value).value))
  {
    if f.1.None? then None
    else match Utf8.Decode(f.1.value)
      case None => None
      case Some(raw) =>
        var text := Text.Universal(raw);
        var content := if PurePath.Name(f.0) == "__init__.py" then FixImports(text) else text;
        Some(MakeResource(Rel(dir, f.0), content))
  }

  function Offers(dir: string, files: seq<(string, Option<seq<Utf8.byte>>)>): (r: seq<Option<Resource>>)
    ensures |r| == |files|
    ensures forall i :: 0 <= i < |files| ==> r[i] == Prepare(dir, files[i])
  {
    if |files| == 0 then [] else [Prepare(dir, files[0])] + Offers(dir, files[1..])
  }

  /** The resources some offers carry, in order. */
  function Accepted(offers: seq<Option<Resource>>): (r: seq<Resource>)
    ensures |r| <= |offers|
    ensures forall x :: x in r <==> Some(x) in offers
  {
    if |offers| == 0 then []
    else
      assert offers == [offers[0]] + offers[1..];
      (if offers[0].Some? then [offers[0].value] else []) + Accepted(offers[1..])
  }

  /** The `build_context` loop: unreadable files are skipped, the first
      rejected file ends the loop. Returns the builder and where it stopped. */
  function Fill(b: Builder, offers: seq<Option<Resource>>, count: Counter, dumps: Dumper): (r: (Builder, nat))
    ensures r.1 <= |offers|
    ensures r.0.maxTokens == b.maxTokens
    ensures 0 <= b.current <= b.maxTokens ==> 0 <= r.0.current <= r.0.maxTokens
    decreases |offers|
  {
    if |offers| == 0 then (b, 0)
    else if offers[0].None? then
      var r := Fill(b, offers[1..], count, dumps);
      (r.0, r.1 + 1)
    else
      var a := Offer(b, offers[0].value, count, dumps);
      if !a.1 then (b, 0)
      else
        var r := Fill(a.0, offers[1..], count, dumps);
        (r.0, r.1 + 1)
  }

  lemma AcceptedCons(offers: seq<Option<Resource>>, n: nat)
    requires 0 < n <= |offers|
    ensures Accepted(offers[..n])
            == (if offers[0].Some? then [offers[0].value] else []) + Accepted(offers[1..][..n - 1])
  {
    assert offers[..n][1..] == offers[1..][..n - 1];
  }

  /** The loop's builder holds the resources offered before the stopping point. */
  lemma {:induction false} FillParts(b: Builder, offers: seq<Option<Resource>>, count: Counter, dumps: Dumper)
    ensures var r := Fill(b, offers, count, dumps);
            r.0.parts == b.parts + Accepted(offers[..r.1])
    decreases |offers|
  {
    if |offers| > 0 {
      var r := Fill(b, offers, count, dumps);
      if offers[0].None? {
        var rr := Fill(b, offers[1..], count, dumps);
        assert r == (rr.0, rr.1 + 1);
        FillParts(b, offers[1..], count, dumps);
        AcceptedCons(offers, r.1);
        assert Accepted(offers[..r.1]) == Accepted(offers[1..][..rr.1]);
      } else {
        var a := Offer(b, offers[0].value, count, dumps);
        if a.1 {
          var rr := Fill(a.0, offers[1..], count, dumps);
          assert r == (rr.0, rr.1 + 1);
          FillParts(a.0, offers[1..], count, dumps);
          AcceptedCons(offers, r.1);
          assert Accepted(offers[..r.1]) == [offers[0].value] + Accepted(offers[1..][..rr.1]);
          assert a.0.parts == b.parts + [offers[0].value];
        } else {
          assert r == (b, 0);
          assert offers[..0] == [];
        }
      }
    }
  }

  /** The loop stops early only at a resource whose rendering does not fit. */
  lemma {:induction false} FillStop(b: Builder, offers: seq<Option<Resource>>, count: Counter, dumps: Dumper)
    ensures var r := Fill(b, offers, count, dumps);
            r.1 < |offers| ==> offers[r.1].Some? && WouldExceed(r.0, count, dumps(offers[r.1].value))
    decreases |offers|
  {
    if |offers| > 0 {
      var r := Fill(b, offers, count, dumps);
      var a := if offers[0].None? then (b, true) else Offer(b, offers[0].value, count, dumps);
      if a.1 {
        FillStop(a.0, offers[1..], count, dumps);
        assert r.1 < |offers| ==> offers[1..][r.1 - 1] == offers[r.1];
      }
    }
  }

  /** Whether every full path has a key, so that the sort does not raise. */
  predicate Keyed(files: seq<(string, Option<seq<Utf8.byte>>)>)
  {
    forall i :: 0 <= i < |files| ==> SortKey(files[i].0).Some?
  }

  /** The key the collected files are sorted by: that of their full path. */
  function FileKey(f: (string, Option<seq<Utf8.byte>>)): Sorting.Key
  {
    SortKey(f.0).GetOr([])
  }

  /** `build_context(directory, max_tokens, exclude_patterns)` over the given
      walk of the directory: only `.py` files are collected, and a full path
      without parts makes the sort raise `IndexError`. */
  function BuildContext(walk: seq<ContextWalk.Dir<Option<seq<Utf8.byte>>>>, dir: string, maxTokens: int,
                        excludes: Option<seq<string>>, count: Counter, dumps: Dumper): (r: Result<string, Nodes.Error>)
    ensures ContextWalk.Collect(walk, excludes.GetOr(ContextWalk.DefaultExcludes), true).Err? ==> r.Err?
    ensures var c := ContextWalk.Collect(walk, excludes.GetOr(ContextWalk.DefaultExcludes), true);
            c.Ok? && !Keyed(c.value) ==> r == Err(Nodes.IndexError)
  {
    match ContextWalk.Collect(walk, excludes.GetOr(ContextWalk.DefaultExcludes), true)
    case Err(e) => Err(e)
    case Ok(files) =>
      if !Keyed(files) then Err(Nodes.IndexError)
      else
        var sorted := Sorting.SortBy(files, FileKey);
        var fill := Fill(NewBuilder(maxTokens), Offers(dir, sorted), count, dumps);
        Build(fill.0)
  }

  /** What `build_context` renders: the collected files in key order, up to
      the first that does not fit, each readable one under its relative path. */
  lemma BuildContextFiles(walk: seq<ContextWalk.Dir<Option<seq<Utf8.byte>>>>, dir: string, maxTokens: int,
                          excludes: Option<seq<string>>, count: Counter, dumps: Dumper,
                          files: seq<(string, Option<seq<Utf8.byte>>)>)
    requires ContextWalk.Collect(walk, excludes.GetOr(ContextWalk.DefaultExcludes), true) == Ok(files)
    requires Keyed(files)
    ensures var sorted := Sorting.SortBy(files, FileKey);
            var offers := Offers(dir, sorted);
            var fill := Fill(NewBuilder(maxTokens), offers, count, dumps);
            && multiset(sorted) == multiset(files)
            && Sorting.SortedBy(sorted, FileKey)
            && fill.0.parts == Accepted(offers[..fill.1])
            && (fill.1 < |offers| ==> offers[fill.1].Some? && WouldExceed(fill.0, count, dumps(offers[fill.1].value)))
            && BuildContext(walk, dir, maxTokens, excludes, count, dumps) == Build(fill.0)
  {
    var sorted := Sorting.SortBy(files, FileKey);
    FillParts(NewBuilder(maxTokens), Offers(dir, sorted), count, dumps);
    FillStop(NewBuilder(maxTokens), Offers(dir, sorted), count, dumps);
  }
}
