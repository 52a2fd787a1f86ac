/**
 The touchfs context builder: a token-budgeted accumulator of file resources,
 the sort key that orders them (top-level files first, then by directory,
 `__init__.py`, `__main__.py` and `setup.py` ahead of the rest), the text the
 resources render to, and the `build_context` loop that feeds the files of a
 directory walk into the builder until one does not fit.

 Token counting (tiktoken, which answers `None` when it fails) and base64
 encoding are parameters.
 */
module TouchfsContext {
  import opened Wrappers
  import Nodes
  import Text
  import Utf8
  import PurePath
  import Sorting
  import ContextWalk

  /** The budget `ContextBuilder()` and `build_context` use when none is given. */
  const DefaultMaxTokens: int := 32000

  /** The extensions whose bytes are tried as UTF-8 text. */
  const TextExtensions: set<string> :=
    {".txt", ".md", ".py", ".js", ".css", ".html", ".json", ".yml", ".yaml", ".ini", ".conf"}

  /** The content handed to `add_file_content`: a `str` or `bytes`. */
  datatype FileData = StrData(text: string) | BytesData(bytes: seq<Utf8.byte>)

  datatype ContentType = TextType | BinaryType

  /** The metadata of one accepted file; the `uri` and `type` entries of the
      source's dict follow from the path and are not stored. */
  datatype Resource = Resource(
    path: string,
    extension: string,
    filename: string,
    contentType: ContentType,
    formatted: string,
    content: string)

  datatype Builder = Builder(maxTokens: int, current: int, parts: seq<Resource>)

  /** The token counter: `None` when counting fails. */
  type Counter = string -> Option<nat>

  /** The base64 encoder. */
  type Encoder = seq<Utf8.byte> -> string

  function NewBuilder(maxTokens: int): (b: Builder)
    ensures b.maxTokens == maxTokens && b.current == 0 && b.parts == []
  {
    Builder(maxTokens, 0, [])
  }

  /** `would_exceed_token_limit(text)`. */
  predicate WouldExceed(b: Builder, count: Counter, text: string)
  {
    count(text).None? || b.current + count(text).value > b.maxTokens
  }

  /** Whether the path's lower-cased suffix names a text format. */
  predicate IsTextFile(path: string)
  {
    Text.Lower(PurePath.Suffix(path)) in TextExtensions
  }

  /** The string stored for some content and its content type. */
  function Classify(path: string, data: FileData, b64: Encoder): (r: (string, ContentType))
  {
    match data
    case StrData(t) => (t, TextType)
    case BytesData(x) =>
      if IsTextFile(path) && Utf8.Decode(x).Some? then (Utf8.Decode(x).value, TextType)
      else (b64(x), BinaryType)
  }

  /** The "Type:" label: the suffix without its dot, or "unknown". */
  function TypeLabel(path: string): (r: string)
  {
    var s := PurePath.Suffix(path);
    if s == "" then "unknown" else s[1..]
  }

  /** The block that is counted against the budget and later rendered. */
  function Format(path: string, content: string, ct: ContentType): (r: string)
    ensures Text.StartsWith(r, "# File: " + path + "\nType: " + TypeLabel(path) + "\n")
    ensures r[|r| - 1] == '\n'
  {
    var head := "# File: " + path + "\nType: " + TypeLabel(path) + "\n";
    var body := if ct == BinaryType then content + "\n" else "```\n" + Text.RStrip(content) + "\n```\n";
    assert (head + body)[..|head|] == head;
    head + body
  }

  /** The resource `add_file_content` builds for a path and its content. */
  function MakeResource(path: string, data: FileData, b64: Encoder): (r: Resource)
    ensures r.path == path && r.extension == PurePath.Suffix(path) && r.filename == PurePath.Name(path)
  {
    var (content, ct) := Classify(path, data, b64);
    Resource(path, PurePath.Suffix(path), PurePath.Name(path), ct, Format(path, content, ct), content)
  }

  /** The budget check of `add_file_content` and its bookkeeping, for the
      resource built from the file: the builder after the call and the value
      returned. */
  function Offer(b: Builder, res: Resource, count: Counter): (r: (Builder, bool))
    ensures r.0.maxTokens == b.maxTokens
    ensures !r.1 ==> r.0 == b
    ensures r.1 ==> r.0.parts == b.parts + [res]
    ensures r.1 ==> r.0.current <= r.0.maxTokens
  {
    if WouldExceed(b, count, res.formatted) then (b, false)
    else (Builder(b.maxTokens, b.current + count(res.formatted).value, b.parts + [res]), true)
  }

  /** `add_file_content(path, content)`. */
  function AddFileContent(b: Builder, path: string, data: FileData, count: Counter, b64: Encoder): (r: (Builder, bool))
    ensures r.0.maxTokens == b.maxTokens
    ensures !r.1 ==> r.0 == b
    ensures r.1 ==> r.0.parts == b.parts + [MakeResource(path, data, b64)]
    ensures r.1 ==> r.0.current <= r.0.maxTokens
  {
    Offer(b, MakeResource(path, data, b64), count)
  }

  /** The tokens the counter gives a sequence of resources, counting a failed
      count as nothing. */
  function Spent(parts: seq<Resource>, count: Counter): int
  {
    if |parts| == 0 then 0
    else Spent(parts[..|parts| - 1], count) + count(parts[|parts| - 1].formatted).GetOr(0)
  }

  /** The running total is the tokens of the accepted resources. */
  predicate Accounted(b: Builder, count: Counter)
  {
    b.current == Spent(b.parts, count)
  }

  /** An offer is accepted exactly when the counter succeeds on the formatted
      block and the block fits in what is left of the budget. */
  lemma OfferAcceptsIffFits(b: Builder, res: Resource, count: Counter)
    ensures Offer(b, res, count).1
            <==> count(res.formatted).Some? && b.current + count(res.formatted).value <= b.maxTokens
  {
  }

  /** Accepting a resource keeps the running total equal to the tokens of the
      accepted resources. */
  lemma OfferKeepsAccounted(b: Builder, res: Resource, count: Counter)
    requires Accounted(b, count)
    ensures Accounted(Offer(b, res, count).0, count)
  {
    var r := Offer(b, res, count);
    if r.1 {
      assert r.0.parts[..|r.0.parts| - 1] == b.parts;
    }
  }

  /** A builder within budget stays within budget whatever is offered. */
  lemma OfferKeepsBudget(b: Builder, res: Resource, count: Counter)
    requires 0 <= b.current <= b.maxTokens
    ensures var r := Offer(b, res, count).0;
            0 <= r.current <= r.maxTokens
  {
  }

  /** Text content is kept as given; bytes are kept as text exactly when the
      extension is a text one and they decode, and are base64 otherwise. */
  lemma ClassifyContent(path: string, data: FileData, b64: Encoder)
    ensures var r := MakeResource(path, data, b64);
            && (data.StrData? ==> r.contentType == TextType && r.content == data.text)
            && (data.BytesData? ==>
                  (r.contentType == TextType <==> IsTextFile(path) && Utf8.Decode(data.bytes).Some?))
            && (data.BytesData? && r.contentType == TextType ==> Utf8.Decode(data.bytes) == Some(r.content))
            && (data.BytesData? && r.contentType == BinaryType ==> r.content == b64(data.bytes))
  {
  }

  /** Text given as its UTF-8 bytes under a text extension is stored as that text. */
  lemma EncodedTextStaysText(path: string, t: string, b64: Encoder)
    requires IsTextFile(path)
    ensures MakeResource(path, BytesData(Utf8.Encode(t)), b64) == MakeResource(path, StrData(t), b64)
  {
    Utf8.DecodeEncode(t);
  }

  /** The type label gives the suffix back: "unknown" exactly when there is none. */
  lemma TypeLabelSuffix(path: string)
    ensures PurePath.Suffix(path) == "" ==> TypeLabel(path) == "unknown"
    ensures PurePath.Suffix(path) != "" ==> "." + TypeLabel(path) == PurePath.Suffix(path)
  {
    var s := PurePath.Suffix(path);
    if s != "" {
      assert s == [s[0]] + s[1..];
    }
  }

  /** The builder's text check from the tests: two tokens fit an empty builder
      of 100, and not one already holding 99. */
  lemma TokenLimitExample(count: Counter, text: string)
    requires count(text) == Some(2)
    ensures !WouldExceed(Builder(100, 0, []), count, text)
    ensures WouldExceed(Builder(100, 99, []), count, text)
  {
  }

  // ---------------------------------------------------------------------------
  // Sort key

  /** The rank of a file name within its directory. */
  function Priority(filename: string): (r: int)
    ensures 0 <= r <= 3
    ensures r == 0 <==> filename == "__init__.py"
    ensures r == 1 <==> filename == "__main__.py"
    ensures r == 2 <==> filename == "setup.py"
  {
    if filename == "__init__.py" then 0
    else if filename == "__main__.py" then 1
    else if filename == "setup.py" then 2
    else 3
  }

  /** The directory parts of a key: all parts but the last, or a lone "" for a
      top-level (or empty) path. */
  function DirParts(parts: seq<string>): (r: seq<string>)
    ensures |r| >= 1
  {
    if |parts| > 1 then parts[..|parts| - 1] else [""]
  }

  /** The key of a path with the given parts: (top-level?, directory depth,
      directory parts, priority, file name). */
  function KeyOf(parts: seq<string>): (k: Sorting.Key)
  {
    var filename := if |parts| > 0 then parts[|parts| - 1] else "";
    var dirs := DirParts(parts);
    [Sorting.AInt(if |parts| == 1 then 0 else 1), Sorting.AInt(|dirs|), Sorting.ATup(dirs),
     Sorting.AInt(Priority(filename)), Sorting.AStr(filename)]
  }

  /** `_sort_path_key(path)`. */
  function SortKey(path: string): (k: Sorting.Key)
  {
    KeyOf(PurePath.Parts(path))
  }

  /** Keys that agree on a common prefix are ordered by what follows it. */
  lemma {:induction false} SharedPrefix(p: Sorting.Key, x: Sorting.Key, y: Sorting.Key)
    ensures Sorting.KeyLess(p + x, p + y) <==> Sorting.KeyLess(x, y)
    decreases |p|
  {
    if |p| > 0 {
      assert (p + x)[1..] == p[1..] + x && (p + y)[1..] == p[1..] + y;
      assert (p + x)[0] == p[0] && (p + y)[0] == p[0];
      Sorting.AtomLessStrictTotal();
      assert !Sorting.AtomLess(p[0], p[0]);
      assert Sorting.KeyLess(p + x, p + y) <==> Sorting.KeyLess(p[1..] + x, p[1..] + y);
      SharedPrefix(p[1..], x, y);
    } else {
      assert p + x == x && p + y == y;
    }
  }

  /** A top-level file sorts before every path of any other depth. */
  lemma TopLevelFirst(a: seq<string>, b: seq<string>)
    requires |a| == 1 && |b| != 1
    ensures Sorting.KeyLess(KeyOf(a), KeyOf(b))
  {
  }

  /** Among nested files, those in shallower directories come first. */
  lemma ShallowerFirst(a: seq<string>, b: seq<string>)
    requires 2 <= |a| < |b|
    ensures Sorting.KeyLess(KeyOf(a), KeyOf(b))
  {
  }

  /** A key split after its directory atoms. */
  lemma KeySplit(a: seq<string>)
    requires |a| > 0
    ensures KeyOf(a) == Head(a) + [Sorting.AInt(Priority(a[|a| - 1])), Sorting.AStr(a[|a| - 1])]
  {
  }

  /** The atoms of a key before the priority. */
  function Head(a: seq<string>): Sorting.Key
  {
    [Sorting.AInt(if |a| == 1 then 0 else 1), Sorting.AInt(|DirParts(a)|), Sorting.ATup(DirParts(a))]
  }

  /** Within one directory the priorities order the files. */
  lemma PriorityOrder(a: seq<string>, b: seq<string>)
    requires |a| == |b| > 0 && DirParts(a) == DirParts(b)
    requires Priority(a[|a| - 1]) < Priority(b[|b| - 1])
    ensures Sorting.KeyLess(KeyOf(a), KeyOf(b))
  {
    KeySplit(a);
    KeySplit(b);
    SharedPrefix(Head(a), [Sorting.AInt(Priority(a[|a| - 1])), Sorting.AStr(a[|a| - 1])],
                 [Sorting.AInt(Priority(b[|b| - 1])), Sorting.AStr(b[|b| - 1])]);
  }

  /** Within one directory and priority, files are ordered by name. */
  lemma NameTieBreak(a: seq<string>, b: seq<string>)
    requires |a| == |b| > 0 && DirParts(a) == DirParts(b)
    requires Priority(a[|a| - 1]) == Priority(b[|b| - 1])
    ensures Sorting.KeyLess(KeyOf(a), KeyOf(b)) <==> Text.Less(a[|a| - 1], b[|b| - 1])
  {
    var fa := a[|a| - 1];
    var fb := b[|b| - 1];
    KeySplit(a);
    KeySplit(b);
    var pre := Head(a) + [Sorting.AInt(Priority(fa))];
    assert KeyOf(a) == pre + [Sorting.AStr(fa)] && KeyOf(b) == pre + [Sorting.AStr(fb)];
    SharedPrefix(pre, [Sorting.AStr(fa)], [Sorting.AStr(fb)]);
    StrKeyLess(fa, fb);
  }

  /** One-string keys are ordered as their strings. */
  lemma StrKeyLess(x: string, y: string)
    ensures Sorting.KeyLess([Sorting.AStr(x)], [Sorting.AStr(y)]) <==> Text.Less(x, y)
  {
    var kx: Sorting.Key := [Sorting.AStr(x)];
    var ky: Sorting.Key := [Sorting.AStr(y)];
    assert kx[1..] == [] && ky[1..] == [];
    assert !Sorting.LexLess(kx[1..], ky[1..], Sorting.AtomLess);
    assert Sorting.AtomLess(kx[0], ky[0]) <==> Text.Less(x, y);
  }

  /** Parts without empty strings are told apart by their keys. */
  lemma KeyOfInjective(a: seq<string>, b: seq<string>)
    requires forall i :: 0 <= i < |a| ==> a[i] != ""
    requires forall i :: 0 <= i < |b| ==> b[i] != ""
    ensures KeyOf(a) == KeyOf(b) <==> a == b
  {
    if KeyOf(a) == KeyOf(b) {
      assert KeyOf(a)[1] == KeyOf(b)[1] && KeyOf(a)[2] == KeyOf(b)[2] && KeyOf(a)[4] == KeyOf(b)[4];
      if |a| > 1 && |b| > 1 {
        assert a == a[..|a| - 1] + [a[|a| - 1]];
        assert b == b[..|b| - 1] + [b[|b| - 1]];
      }
    }
  }

  /** Two paths get the same key exactly when they have the same parts. */
  lemma SortKeyInjective(p: string, q: string)
    ensures SortKey(p) == SortKey(q) <==> PurePath.Parts(p) == PurePath.Parts(q)
  {
    PartsNonEmpty(p);
    PartsNonEmpty(q);
    KeyOfInjective(PurePath.Parts(p), PurePath.Parts(q));
  }

  /** The order the tests expect for a small package: the top-level
      `__init__.py`, `__main__.py` and other files, then the subpackage's
      `__init__.py` and its other modules. */
  lemma PackageOrder()
    ensures Sorting.KeyLess(KeyOf(["__init__.py"]), KeyOf(["__main__.py"]))
    ensures Sorting.KeyLess(KeyOf(["__main__.py"]), KeyOf(["utils.py"]))
    ensures Sorting.KeyLess(KeyOf(["utils.py"]), KeyOf(["core", "__init__.py"]))
    ensures Sorting.KeyLess(KeyOf(["core", "__init__.py"]), KeyOf(["core", "module.py"]))
  {
    PriorityOrder(["__init__.py"], ["__main__.py"]);
    PriorityOrder(["__main__.py"], ["utils.py"]);
    TopLevelFirst(["utils.py"], ["core", "__init__.py"]);
    PriorityOrder(["core", "__init__.py"], ["core", "module.py"]);
  }

  /** No part of a path is empty. */
  lemma PartsNonEmpty(p: string)
    ensures forall i :: 0 <= i < |PurePath.Parts(p)| ==> PurePath.Parts(p)[i] != ""
  {
    var parts := PurePath.Parts(p);
    if PurePath.Anchor(p) != "" {
      forall i | 0 <= i < |parts| ensures parts[i] != "" {
        if i > 0 { assert parts[i] == PurePath.Tail(p)[i - 1]; }
      }
    }
  }

  // ---------------------------------------------------------------------------
  // build_text_context

  /** What the output holds, piece by piece: module headers and the resources'
      pre-formatted blocks. */
  datatype Piece = ModuleHeader(name: string) | Block(text: string)

  /** The key a resource is sorted by. */
  function ResourceKey(r: Resource): Sorting.Key
  {
    SortKey(r.path)
  }

  /** Two different resources with equal keys: comparing their `(key,
      resource)` tuples falls through to comparing two dicts, which raises
      `TypeError`. */
  predicate Clash(rs: seq<Resource>)
  {
    exists i, j :: 0 <= i < j < |rs| && ResourceKey(rs[i]) == ResourceKey(rs[j]) && rs[i] != rs[j]
  }

  /** The message of the `RuntimeError` a failed sort escapes as: the inner
      handler wraps the `TypeError`, the outer one wraps it again. */
  const SortFailure: string :=
    "Failed to sort resources: Failed to sort resources: '<' not supported between instances of 'dict' and 'dict'"

  /** The pieces for resources in output order, given the module of the
      previous resource. */
  function Emit(rs: seq<Resource>, current: Option<string>): seq<Piece>
  {
    if |rs| == 0 then []
    else
      var m := PurePath.Parent(rs[0].path);
      var head := if current != Some(m) && m != "" && m != "." then [ModuleHeader(m)] else [];
      head + [Block(rs[0].formatted)] + Emit(rs[1..], Some(m))
  }

  /** The blocks among some pieces, in order. */
  function Blocks(ps: seq<Piece>): seq<string>
  {
    if |ps| == 0 then []
    else (if ps[0].Block? then [ps[0].text] else []) + Blocks(ps[1..])
  }

  function Formatted(rs: seq<Resource>): (r: seq<string>)
    ensures |r| == |rs| && forall i :: 0 <= i < |rs| ==> r[i] == rs[i].formatted
  {
    if |rs| == 0 then [] else [rs[0].formatted] + Formatted(rs[1..])
  }

  function RenderPiece(p: Piece): string
  {
    match p
    case ModuleHeader(m) => "\n# Module: " + m + "\n"
    case Block(t) => t
  }

  function Render(ps: seq<Piece>): (r: seq<string>)
    ensures |r| == |ps| && forall i :: 0 <= i < |ps| ==> r[i] == RenderPiece(ps[i])
  {
    if |ps| == 0 then [] else [RenderPiece(ps[0])] + Render(ps[1..])
  }

  /** `build_text_context(resources)`. */
  function BuildText(rs: seq<Resource>): (r: Result<string, Nodes.Error>)
    ensures r.Err? <==> Clash(rs)
    ensures r.Err? ==> r.error == Nodes.RuntimeError(SortFailure)
    ensures r.Ok? ==> Text.StartsWith(r.value, "# Context Information\n")
  {
    if Clash(rs) then Err(Nodes.RuntimeError(SortFailure))
    else
      var lines := ["# Context Information", ""] + Render(Emit(Sorting.SortBy(rs, ResourceKey), None));
      JoinStarts("# Context Information", lines[1..], "\n");
      assert lines == [lines[0]] + lines[1..];
      Ok(Text.Join(lines, "\n"))
  }

  /** A join of at least two parts starts with the first and the separator. */
  lemma JoinStarts(head: string, rest: seq<string>, sep: string)
    requires |rest| > 0
    ensures Text.StartsWith(Text.Join([head] + rest, sep), head + sep)
  {
    assert ([head] + rest)[1..] == rest;
    var j := Text.Join([head] + rest, sep);
    assert j == head + sep + Text.Join(rest, sep);
    assert j[..|head + sep|] == head + sep;
  }

  lemma {:induction false} BlocksAppend(a: seq<Piece>, b: seq<Piece>)
    ensures Blocks(a + b) == Blocks(a) + Blocks(b)
    decreases |a|
  {
    if |a| == 0 {
      assert a + b == b;
    } else {
      assert (a + b)[1..] == a[1..] + b && (a + b)[0] == a[0];
      BlocksAppend(a[1..], b);
      var h := if a[0].Block? then [a[0].text] else [];
      assert Blocks(a + b) == h + Blocks(a[1..] + b);
      assert Blocks(a) == h + Blocks(a[1..]);
    }
  }

  /** The blocks of the output are the resources' formatted texts, in order,
      whatever module headers come between them. */
  lemma {:induction false} EmitBlocks(rs: seq<Resource>, current: Option<string>)
    ensures Blocks(Emit(rs, current)) == Formatted(rs)
    decreases |rs|
  {
    if |rs| > 0 {
      var m := PurePath.Parent(rs[0].path);
      var head := if current != Some(m) && m != "" && m != "." then [ModuleHeader(m)] else [];
      EmitBlocks(rs[1..], Some(m));
      BlocksAppend(head + [Block(rs[0].formatted)], Emit(rs[1..], Some(m)));
      BlocksAppend(head, [Block(rs[0].formatted)]);
      assert Blocks([Block(rs[0].formatted)]) == [rs[0].formatted];
    }
  }

  /** Every module header names the parent of some resource, and never ".". */
  lemma {:induction false} EmitHeaders(rs: seq<Resource>, current: Option<string>, m: string)
    requires ModuleHeader(m) in Emit(rs, current)
    ensures m != "." && m != ""
    ensures exists i :: 0 <= i < |rs| && PurePath.Parent(rs[i].path) == m
    decreases |rs|
  {
    var p := PurePath.Parent(rs[0].path);
    var head := if current != Some(p) && p != "" && p != "." then [ModuleHeader(p)] else [];
    assert Emit(rs, current) == head + [Block(rs[0].formatted)] + Emit(rs[1..], Some(p));
    if ModuleHeader(m) in Emit(rs[1..], Some(p)) {
      EmitHeaders(rs[1..], Some(p), m);
      var i :| 0 <= i < |rs[1..]| && PurePath.Parent(rs[1..][i].path) == m;
      assert rs[i + 1] == rs[1..][i];
    } else {
      assert ModuleHeader(m) in head;
    }
  }

  /** Resources that all sit in one module other than "." get exactly one
      header, in front of their blocks. */
  lemma {:induction false} EmitOneModule(rs: seq<Resource>, m: string)
    requires |rs| > 0 && m != "." && m != ""
    requires forall i :: 0 <= i < |rs| ==> PurePath.Parent(rs[i].path) == m
    ensures Emit(rs, None) == [ModuleHeader(m)] + EmitSame(rs)
  {
    var m0 := PurePath.Parent(rs[0].path);
    assert m0 == m;
    assert forall i :: 0 <= i < |rs[1..]| ==> rs[1..][i] == rs[i + 1];
    EmitSameModule(rs[1..], m);
    assert Emit(rs, None) == [ModuleHeader(m)] + [Block(rs[0].formatted)] + Emit(rs[1..], Some(m));
    assert EmitSame(rs) == [Block(rs[0].formatted)] + EmitSame(rs[1..]);
  }

  /** The blocks of some resources with no headers. */
  function EmitSame(rs: seq<Resource>): seq<Piece>
  {
    if |rs| == 0 then [] else [Block(rs[0].formatted)] + EmitSame(rs[1..])
  }

  lemma {:induction false} EmitSameModule(rs: seq<Resource>, m: string)
    requires forall i :: 0 <= i < |rs| ==> PurePath.Parent(rs[i].path) == m
    ensures Emit(rs, Some(m)) == EmitSame(rs)
    decreases |rs|
  {
    if |rs| > 0 {
      assert forall i :: 0 <= i < |rs[1..]| ==> rs[1..][i] == rs[i + 1];
      EmitSameModule(rs[1..], m);
    }
  }

  // ---------------------------------------------------------------------------
  // build_context

  /** `os.path.relpath(path, directory)` for a path under the directory. */
  function Rel(dir: string, path: string): string
  {
    var pre := if Text.EndsWith(dir, "/") then dir else dir + "/";
    if Text.StartsWith(path, pre) then path[|pre|..] else path
  }

  /** What reading a file gave: when its bytes decode as UTF-8, the text
      read in text mode, whose line ends read as "\n"; the raw bytes
      otherwise; nothing when the read failed. */
  function ReadAs(read: Option<seq<Utf8.byte>>): (r: Option<FileData>)
    ensures r.None? <==> read.None?
    ensures r.Some? ==> (r.value.StrData? <==> Utf8.Decode(read.value).Some?)
    ensures r.Some? && r.value.StrData? ==>
              '\r' !in r.value.text && r.value.text == Text.Universal(Utf8.Decode(read.value).value)
    ensures r.Some? && r.value.BytesData? ==> r.value.bytes == read.value
  {
    match read
    case None => None
    case Some(x) => if Utf8.Decode(x).Some? then Some(StrData(Text.Universal(Utf8.Decode(x).value))) else Some(BytesData(x))
  }

  /** The resource a file of the walk is offered as, under its path relative
      to the directory; nothing when it cannot be read. A file that decodes
      is offered as text with its line ends read as "\n"; one that does not
      is offered through its raw bytes. */
  function Prepare(dir: string, f: (string, Option<seq<Utf8.byte>>), b64: Encoder): (r: Option<Resource>)
    ensures r.None? <==> f.1.None?
    ensures r.Some? ==> r.value.path == Rel(dir, f.0)
    ensures r.Some? && Utf8.Decode(f.1.value).Some? ==>
              r.value.contentType == TextType && r.value.content == Text.Universal(Utf8.Decode(f.1.value).value)
    ensures r.Some? && Utf8.Decode(f.1.value).None? ==>
              r.value.contentType == BinaryType && r.value.content == b64(f.1.value)
  {
    match ReadAs(f.1)
    case None => None
    case Some(d) => Some(MakeResource(Rel(dir, f.0), d, b64))
  }

  /** The resources some offers carry, in order. */
  function Accepted(offers: seq<Option<Resource>>): (r: seq<Resource>)
    ensures |r| <= |offers|
    ensures forall x :: x in r <==> Some(x) in offers
  {
    if |offers| == 0 then []
    else
      assert offers == [offers[0]] + offers[1..];
      (if offers[0].Some? then [offers[0].value] else []) + Accepted(offers[1..])
  }

  /** The `build_context` loop: unreadable files are skipped, the first file
      the builder rejects ends the loop. Returns the builder and the index the
      loop stopped at (`|offers|` when it ran to the end). */
  function Fill(b: Builder, offers: seq<Option<Resource>>, count: Counter): (r: (Builder, nat))
    ensures r.1 <= |offers|
    ensures r.0.maxTokens == b.maxTokens
    ensures 0 <= b.current <= b.maxTokens ==> 0 <= r.0.current <= r.0.maxTokens
    decreases |offers|
  {
    if |offers| == 0 then (b, 0)
    else if offers[0].None? then
      var r := Fill(b, offers[1..], count);
      (r.0, r.1 + 1)
    else
      var a := Offer(b, offers[0].value, count);
      if !a.1 then (b, 0)
      else
        var r := Fill(a.0, offers[1..], count);
        (r.0, r.1 + 1)
  }

  /** The loop's builder holds the resources offered before the stopping point. */
  lemma {:induction false} FillParts(b: Builder, offers: seq<Option<Resource>>, count: Counter)
    ensures var r := Fill(b, offers, count);
            r.0.parts == b.parts + Accepted(offers[..r.1])
    decreases |offers|
  {
    if |offers| > 0 {
      var r := Fill(b, offers, count);
      if offers[0].None? {
        var rr := Fill(b, offers[1..], count);
        assert r == (rr.0, rr.1 + 1);
        FillParts(b, offers[1..], count);
        AcceptedCons(offers, r.1);
        assert Accepted(offers[..r.1]) == Accepted(offers[1..][..rr.1]);
      } else {
        var a := Offer(b, offers[0].value, count);
        if a.1 {
          var rr := Fill(a.0, offers[1..], count);
          assert r == (rr.0, rr.1 + 1);
          FillParts(a.0, offers[1..], count);
          AcceptedCons(offers, r.1);
          assert Accepted(offers[..r.1]) == [offers[0].value] + Accepted(offers[1..][..rr.1]);
          assert a.0.parts == b.parts + [offers[0].value];
        } else {
          assert r == (b, 0);
          assert offers[..0] == [];
        }
      }
    }
  }

  /** The loop stops early only at a resource whose block does not fit. */
  lemma {:induction false} FillStop(b: Builder, offers: seq<Option<Resource>>, count: Counter)
    ensures var r := Fill(b, offers, count);
            r.1 < |offers| ==> offers[r.1].Some? && WouldExceed(r.0, count, offers[r.1].value.formatted)
    decreases |offers|
  {
    if |offers| > 0 {
      var r := Fill(b, offers, count);
      var a := if offers[0].None? then (b, true) else Offer(b, offers[0].value, count);
      if a.1 {
        FillStop(a.0, offers[1..], count);
        assert r.1 < |offers| ==> offers[1..][r.1 - 1] == offers[r.1];
      }
    }
  }

  /** Peeling the first offer off the resources of a prefix. */
  lemma AcceptedCons(offers: seq<Option<Resource>>, n: nat)
    requires 0 < n <= |offers|
    ensures Accepted(offers[..n])
            == (if offers[0].Some? then [offers[0].value] else []) + Accepted(offers[1..][..n - 1])
  {
    assert offers[..n][1..] == offers[1..][..n - 1];
  }

  /** The loop keeps the running total equal to the tokens of the accepted resources. */
  lemma {:induction false} FillAccounted(b: Builder, offers: seq<Option<Resource>>, count: Counter)
    requires Accounted(b, count)
    ensures Accounted(Fill(b, offers, count).0, count)
    decreases |offers|
  {
    if |offers| > 0 {
      if offers[0].Some? {
        OfferKeepsAccounted(b, offers[0].value, count);
        var a := Offer(b, offers[0].value, count);
        if a.1 { FillAccounted(a.0, offers[1..], count); }
      } else {
        FillAccounted(b, offers[1..], count);
      }
    }
  }

  /** The key a file of the walk is sorted by: the key of its relative path,
      then its full path. */
  function FileKey(dir: string): ((string, Option<seq<Utf8.byte>>)) -> Sorting.Key
  {
    (f: (string, Option<seq<Utf8.byte>>)) => SortKey(Rel(dir, f.0)) + [Sorting.AStr(f.0)]
  }

  /** The offers made for some files, in order. */
  function Offers(dir: string, files: seq<(string, Option<seq<Utf8.byte>>)>, b64: Encoder): (r: seq<Option<Resource>>)
    ensures |r| == |files|
    ensures forall i :: 0 <= i < |files| ==> r[i] == Prepare(dir, files[i], b64)
  {
    if |files| == 0 then [] else [Prepare(dir, files[0], b64)] + Offers(dir, files[1..], b64)
  }

  /** `build_context(directory, max_tokens, exclude_patterns)` over the given
      walk of the directory. */
  function BuildContext(walk: seq<ContextWalk.Dir<Option<seq<Utf8.byte>>>>, dir: string, maxTokens: int,
                        excludes: Option<seq<string>>, count: Counter, b64: Encoder): (r: Result<string, Nodes.Error>)
    ensures ContextWalk.Collect(walk, excludes.GetOr(ContextWalk.DefaultExcludes), false).Err? ==> r.Err?
    ensures r.Ok? ==> Text.StartsWith(r.value, "# Context Information\n")
  {
    match ContextWalk.Collect(walk, excludes.GetOr(ContextWalk.DefaultExcludes), false)
    case Err(e) => Err(e)
    case Ok(files) =>
      var sorted := Sorting.SortBy(files, FileKey(dir));
      var fill := Fill(NewBuilder(maxTokens), Offers(dir, sorted, b64), count);
      BuildText(fill.0.parts)
  }

  /** The files `build_context` offers the builder are those the walk keeps,
      in key order, and the ones it renders are the readable ones before the
      first that does not fit. */
  lemma BuildContextFiles(walk: seq<ContextWalk.Dir<Option<seq<Utf8.byte>>>>, dir: string, maxTokens: int,
                          excludes: Option<seq<string>>, count: Counter, b64: Encoder)
    requires ContextWalk.Collect(walk, excludes.GetOr(ContextWalk.DefaultExcludes), false).Ok?
    ensures var files := ContextWalk.Collect(walk, excludes.GetOr(ContextWalk.DefaultExcludes), false).value;
            var sorted := Sorting.SortBy(files, FileKey(dir));
            var offers := Offers(dir, sorted, b64);
            var fill := Fill(NewBuilder(maxTokens), offers, count);
            && multiset(sorted) == multiset(files)
            && Sorting.SortedBy(sorted, FileKey(dir))
            && fill.0.parts == Accepted(offers[..fill.1])
            && (fill.1 < |offers| ==> offers[fill.1].Some? && WouldExceed(fill.0, count, offers[fill.1].value.formatted))
            && BuildContext(walk, dir, maxTokens, excludes, count, b64) == BuildText(fill.0.parts)
  {
    var files := ContextWalk.Collect(walk, excludes.GetOr(ContextWalk.DefaultExcludes), false).value;
    var sorted := Sorting.SortBy(files, FileKey(dir));
    FillParts(NewBuilder(maxTokens), Offers(dir, sorted, b64), count);
    FillStop(NewBuilder(maxTokens), Offers(dir, sorted, b64), count);
  }
}
