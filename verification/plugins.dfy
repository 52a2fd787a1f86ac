/**
 Content-generator plugins as the registries see them: a name, a `can_handle`
 predicate over a path and a node, and the overlay ("proc") files the plugin
 places in the reserved directory. The base class claims a node whose
 `generator` xattr names the plugin; a proc plugin claims exactly its one
 overlay path, a multi-proc plugin each of its paths.

 The reserved directory is a parameter: "/.llmfs/" for the older package,
 "/.touchfs/" for the newer one, where overlay files are called proc files.
 */
module Plugins {
  import opened Wrappers
  import opened Dicts
  import Text
  import Nodes

  const LlmfsDir: string := "/.llmfs/"
  const TouchfsDir: string := "/.touchfs/"

  /** `str(S_IFREG | 0o644)`. */
  const RegularFileMode: string := "33188"

  /** A virtual file a plugin places in the filesystem. */
  datatype OverlayFile = OverlayFile(
    path: string,
    kind: Nodes.Kind,
    content: string,
    attrs: Dict<string, string>,
    xattrs: Dict<string, string>)

  /** The attribute and xattr maps of an overlay file are well-formed dictionaries. */
  ghost predicate ValidFile(f: OverlayFile)
  {
    f.attrs.Valid() && f.xattrs.Valid()
  }

  /** `OverlayFile(path, xattrs)`: a regular file with mode 0o644, no content
      and size "0"; a missing xattr map becomes an empty one. */
  function NewOverlayFile(path: string, xattrs: Option<Dict<string, string>>): (f: OverlayFile)
    ensures f.path == path && f.kind == Nodes.File && f.content == ""
    ensures f.attrs.Valid() && f.attrs.keys == ["st_mode", "st_size"]
    ensures f.attrs.Get("st_mode") == Some(RegularFileMode) && f.attrs.Get("st_size") == Some("0")
    ensures xattrs.Some? ==> f.xattrs == xattrs.value
    ensures xattrs.None? ==> f.xattrs == Empty()
  {
    var attrs := Empty<string, string>().Put("st_mode", RegularFileMode).Put("st_size", "0");
    OverlayFile(path, Nodes.File, "", attrs, xattrs.GetOr(Empty()))
  }

  /** The single-entry xattr map `{"generator": name}`. */
  function GeneratorTag(name: string): (d: Dict<string, string>)
    ensures d.Valid() && d.keys == ["generator"] && d.Get("generator") == Some(name)
  {
    Empty<string, string>().Put("generator", name)
  }

  /** How a plugin decides `can_handle`, and which overlay files it provides. */
  datatype Matcher =
    | ByGenerator                                              // the base class's predicate, no overlay files
    | Own(accepts: (string, Nodes.Node) -> bool, files: seq<OverlayFile>)   // a plugin's own override
    | Proc(dir: string, procPath: string)                      // one overlay file at dir + procPath
    | MultiProc(dir: string, procPaths: seq<string>)           // one per listed path

  /** A registered generator. A subclass of the base class always has a
      `generator_name`; an object that only follows the protocol may lack one
      and is then known by its class name. */
  datatype Plugin =
    | Base(name: string, matcher: Matcher)
    | Duck(className: string, accepts: (string, Nodes.Node) -> bool, files: seq<OverlayFile>)

  /** The key the registries file a generator under: `generator_name()` when
      it has one, else the lower-cased class name. */
  function NameOf(g: Plugin): (r: string)
    ensures g.Base? ==> r == g.name
    ensures g.Duck? ==> r == Text.Lower(g.className)
  {
    match g
    case Base(name, _) => name
    case Duck(c, _, _) => Text.Lower(c)
  }

  /** The base class's `can_handle`: the node has xattrs and its `generator`
      entry is the plugin's name. */
  predicate DefaultCanHandle(name: string, node: Nodes.Node)
  {
    node.xattrs.Some? && node.xattrs.value.Get("generator") == Some(name)
  }

  /** Whether `path` is `dir + p` for one of the listed paths. */
  predicate AnyProcPath(dir: string, procPaths: seq<string>, path: string)
  {
    if |procPaths| == 0 then false
    else path == dir + procPaths[0] || AnyProcPath(dir, procPaths[1..], path)
  }

  /** `can_handle(path, node)`. */
  predicate CanHandle(g: Plugin, path: string, node: Nodes.Node)
  {
    match g
    case Duck(_, accepts, _) => accepts(path, node)
    case Base(name, m) =>
      match m
      case ByGenerator => DefaultCanHandle(name, node)
      case Own(accepts, _) => accepts(path, node)
      case Proc(dir, p) => path == dir + p
      case MultiProc(dir, ps) => AnyProcPath(dir, ps, path)
  }

  /** The overlay files `dir + p` for each listed path, tagged with the plugin's name. */
  function ProcFilesAt(dir: string, procPaths: seq<string>, name: string): (r: seq<OverlayFile>)
    ensures |r| == |procPaths|
    ensures forall i :: 0 <= i < |r| ==> ValidFile(r[i])
    ensures forall i :: 0 <= i < |r| ==> r[i] == NewOverlayFile(dir + procPaths[i], Some(GeneratorTag(name)))
  {
    if |procPaths| == 0 then []
    else [NewOverlayFile(dir + procPaths[0], Some(GeneratorTag(name)))] + ProcFilesAt(dir, procPaths[1..], name)
  }

  /** Every overlay file a plugin provides is well-formed. */
  ghost predicate ValidPlugin(g: Plugin)
  {
    forall i :: 0 <= i < |ProcFiles(g)| ==> ValidFile(ProcFiles(g)[i])
  }

  /** `get_overlay_files()` / `get_proc_files()`. */
  function ProcFiles(g: Plugin): (r: seq<OverlayFile>)
    ensures g.Base? && g.matcher.ByGenerator? ==> r == []
    ensures g.Base? && g.matcher.Proc? ==>
              r == [NewOverlayFile(g.matcher.dir + g.matcher.procPath, Some(GeneratorTag(g.name)))]
    ensures g.Base? && !g.matcher.Own? ==> forall i :: 0 <= i < |r| ==> ValidFile(r[i])
  {
    match g
    case Duck(_, _, files) => files
    case Base(name, m) =>
      match m
      case ByGenerator => []
      case Own(_, files) => files
      case Proc(dir, p) => [NewOverlayFile(dir + p, Some(GeneratorTag(name)))]
      case MultiProc(dir, ps) => ProcFilesAt(dir, ps, name)
  }

  /** The base predicate claims a node exactly when its `generator` xattr is
      the plugin's name; a node without xattrs is never claimed. */
  lemma DefaultCanHandleIff(name: string, m: Matcher, path: string, node: Nodes.Node)
    requires m.ByGenerator?
    ensures CanHandle(Base(name, m), path, node) <==> Nodes.XattrOf(node, "generator") == Some(name)
    ensures node.xattrs.None? ==> !CanHandle(Base(name, m), path, node)
  {
  }

  /** A multi-proc plugin claims a path exactly when it is one of its overlay paths. */
  lemma {:induction false} AnyProcPathIff(dir: string, procPaths: seq<string>, path: string)
    ensures AnyProcPath(dir, procPaths, path) <==> exists i :: 0 <= i < |procPaths| && path == dir + procPaths[i]
    decreases |procPaths|
  {
    if |procPaths| > 0 {
      AnyProcPathIff(dir, procPaths[1..], path);
      if exists i :: 0 <= i < |procPaths| && path == dir + procPaths[i] {
        var i :| 0 <= i < |procPaths| && path == dir + procPaths[i];
        if i > 0 {
          assert procPaths[1..][i - 1] == procPaths[i];
        }
      }
      if AnyProcPath(dir, procPaths[1..], path) {
        var i :| 0 <= i < |procPaths[1..]| && path == dir + procPaths[1..][i];
        assert procPaths[i + 1] == procPaths[1..][i];
      }
    }
  }

  lemma ProcFilesAtPaths(dir: string, procPaths: seq<string>, name: string)
    ensures forall i :: 0 <= i < |procPaths| ==> ProcFilesAt(dir, procPaths, name)[i].path == dir + procPaths[i]
  {
  }

  /** A proc or multi-proc plugin claims a path iff it is one of its own
      overlay paths, whatever the node. */
  lemma ProcCanHandleIff(g: Plugin, path: string, node: Nodes.Node)
    requires g.Base? && (g.matcher.Proc? || g.matcher.MultiProc?)
    ensures CanHandle(g, path, node) <==> exists i :: 0 <= i < |ProcFiles(g)| && ProcFiles(g)[i].path == path
  {
    if g.matcher.MultiProc? {
      var dir, ps := g.matcher.dir, g.matcher.procPaths;
      AnyProcPathIff(dir, ps, path);
      ProcFilesAtPaths(dir, ps, g.name);
      var fs := ProcFiles(g);
      assert fs == ProcFilesAt(dir, ps, g.name);
      if CanHandle(g, path, node) {
        var i :| 0 <= i < |ps| && path == dir + ps[i];
        assert fs[i].path == path;
      }
    } else {
      assert ProcFiles(g)[0].path == g.matcher.dir + g.matcher.procPath;
    }
  }

  /** Every overlay file of a proc or multi-proc plugin is claimed by it and
      tagged with its name. */
  lemma OwnFilesHandled(g: Plugin, node: Nodes.Node)
    requires g.Base? && (g.matcher.Proc? || g.matcher.MultiProc?)
    ensures forall i :: 0 <= i < |ProcFiles(g)| ==>
              CanHandle(g, ProcFiles(g)[i].path, node) && ProcFiles(g)[i].xattrs.Get("generator") == Some(g.name)
  {
    forall i | 0 <= i < |ProcFiles(g)|
      ensures CanHandle(g, ProcFiles(g)[i].path, node)
    {
      ProcCanHandleIff(g, ProcFiles(g)[i].path, node);
    }
  }

  /** A proc plugin whose reserved directory is `dir` never claims a path
      outside it: nested reserved directories and bare names are refused. */
  lemma ProcStaysInDir(g: Plugin, path: string, node: Nodes.Node)
    requires g.Base? && (g.matcher.Proc? || g.matcher.MultiProc?)
    requires !Text.StartsWith(path, g.matcher.dir)
    ensures !CanHandle(g, path, node)
  {
    ProcCanHandleIff(g, path, node);
  }

  /** A plugin serving `/.llmfs/generation.model` claims that path and not
      the same name in a nested `.llmfs` directory or as a bare name. */
  lemma GenerationModelPath(node: Nodes.Node)
    ensures var g := Base("generation_model", Proc(LlmfsDir, "generation.model"));
            && CanHandle(g, "/.llmfs/generation.model", node)
            && !CanHandle(g, "/project/.llmfs/generation.model", node)
            && !CanHandle(g, "generation.model", node)
  {
    var g := Base("generation_model", Proc(LlmfsDir, "generation.model"));
    assert LlmfsDir + "generation.model" == "/.llmfs/generation.model";
    assert "/project/.llmfs/generation.model"[1] != LlmfsDir[1];
    ProcStaysInDir(g, "/project/.llmfs/generation.model", node);
    ProcStaysInDir(g, "generation.model", node);
  }
}
