/**
 Configuration lookup: prompt and model resolution of the touchfs package
 and the settings module of the llmfs package.

 Everything the Python code reads from outside the process (environment
 variables, files relative to the working directory, the JSON decoder, the
 packaged prompt template) is a `Host` parameter, and the module-level
 globals (`_current_model`, `_overlay_path`, `_last_final_prompt`,
 `_filesystem_prompt`) are explicit state values threaded through calls.
 */
module Settings {
  import opened Wrappers
  import opened Values
  import Text
  import Paths
  import Nodes

  /** What the configuration code reads from outside the process. */
  datatype Host = Host(
    env: string -> Option<string>,    // os.getenv
    files: string -> Option<string>,  // text of an existing, readable file; None otherwise
    isFile: string -> bool,           // os.path.isfile
    json: string -> Option<Value>,    // json.loads; None on a decode error
    template: Result<string, Nodes.Error>)  // the content-generation template, or the error reading it raised

  const PromptVar := "TOUCHFS_PROMPT"
  const FilesystemPromptVar := "TOUCHFS_FILESYSTEM_GENERATION_PROMPT"
  const GlobalPromptVar := "TOUCHFS_GLOBAL_PROMPT"
  const ModelVar := "TOUCHFS_DEFAULT_MODEL"
  const KeyVar := "OPENAI_API_KEY"
  const LlmfsPromptVar := "LLMFS_PROMPT"
  const LogDirVar := "LLMFS_LOG_DIR"
  const DefaultLogDir := "/var/log/llmfs"
  /** The initial value of `_current_model`. */
  const DefaultModel := "gpt-4o-2024-08-06"

  /** An optional string that Python's `if s:` accepts. */
  predicate Given(o: Option<string>)
  {
    o.Some? && |o.value| > 0
  }

  /** A lookup result that `if x := lookup():` accepts. */
  predicate Hit(o: Option<Value>)
  {
    o.Some? && o.value.Truthy()
  }

  function Lift(o: Option<string>): (r: Option<Value>)
    ensures Hit(r) <==> Given(o)
    ensures Hit(r) ==> r.value == Str(o.value)
  {
    if o.Some? then Some(Str(o.value)) else None
  }

  // ---------------------------------------------------------------------
  // Precedence chains
  // ---------------------------------------------------------------------

  /** The value a chain of `if x := candidate: return x` statements returns:
      the first accepted candidate, else the fallback. */
  function FirstHit(cands: seq<Option<Value>>, fallback: Value): Value
  {
    if |cands| == 0 then fallback
    else if Hit(cands[0]) then cands[0].value
    else FirstHit(cands[1..], fallback)
  }

  /** The chain returns the earliest accepted candidate, whatever comes after it. */
  lemma {:induction false} FirstHitEarliest(cands: seq<Option<Value>>, fallback: Value, i: nat)
    requires i < |cands| && Hit(cands[i])
    requires forall j :: 0 <= j < i ==> !Hit(cands[j])
    ensures FirstHit(cands, fallback) == cands[i].value
    decreases i
  {
    if i > 0 {
      assert !Hit(cands[0]);
      FirstHitEarliest(cands[1..], fallback, i - 1);
    }
  }

  /** With no accepted candidate the chain falls through to the fallback. */
  lemma {:induction false} FirstHitFallback(cands: seq<Option<Value>>, fallback: Value)
    requires forall j :: 0 <= j < |cands| ==> !Hit(cands[j])
    ensures FirstHit(cands, fallback) == fallback
    decreases |cands|
  {
    if |cands| > 0 {
      assert !Hit(cands[0]);
      FirstHitFallback(cands[1..], fallback);
    }
  }

  /** The chain's answer is either an accepted candidate or the fallback. */
  lemma {:induction false} FirstHitSource(cands: seq<Option<Value>>, fallback: Value)
    ensures var r := FirstHit(cands, fallback);
            r == fallback || exists i :: 0 <= i < |cands| && Hit(cands[i]) && cands[i].value == r
    decreases |cands|
  {
    if |cands| > 0 && !Hit(cands[0]) {
      FirstHitSource(cands[1..], fallback);
      var r := FirstHit(cands, fallback);
      if r != fallback {
        var i :| 0 <= i < |cands[1..]| && Hit(cands[1..][i]) && cands[1..][i].value == r;
        assert Hit(cands[i + 1]) && cands[i + 1].value == r;
      }
    }
  }

  lemma FirstHitCons(c: Option<Value>, rest: seq<Option<Value>>, fallback: Value)
    ensures FirstHit([c] + rest, fallback) == if Hit(c) then c.value else FirstHit(rest, fallback)
  {
    assert ([c] + rest)[1..] == rest;
  }

  lemma {:induction false} FirstHitFour(a: Option<Value>, b: Option<Value>, c: Option<Value>, d: Option<Value>, fb: Value)
    ensures FirstHit([a, b, c, d], fb)
         == if Hit(a) then a.value else if Hit(b) then b.value
            else if Hit(c) then c.value else if Hit(d) then d.value else fb
  {
    FirstHitCons(a, [b, c, d], fb);
    FirstHitCons(b, [c, d], fb);
    FirstHitCons(c, [d], fb);
    FirstHitCons(d, [], fb);
    assert [a, b, c, d] == [a] + [b, c, d];
    assert [b, c, d] == [b] + [c, d];
    assert [c, d] == [c] + [d];
    assert [d] == [d] + [];
  }

  lemma {:induction false} FirstHitSix(a: Option<Value>, b: Option<Value>, c: Option<Value>, d: Option<Value>,
                                       e: Option<Value>, f: Option<Value>, fb: Value)
    ensures FirstHit([a, b] + [c, d] + [e, f], fb)
         == if Hit(a) then a.value else if Hit(b) then b.value
            else FirstHit([c, d, e, f], fb)
  {
    assert [a, b] + [c, d] + [e, f] == [a] + ([b] + [c, d, e, f]);
    FirstHitCons(a, [b] + [c, d, e, f], fb);
    FirstHitCons(b, [c, d, e, f], fb);
  }

  // ---------------------------------------------------------------------
  // Setting files
  // ---------------------------------------------------------------------

  /** `_read_prompt_file` (field "prompt") and `_read_model_file` (field
      "model"): the stripped file text is decoded as JSON; a mapping holding
      the field yields that value, any other JSON document yields nothing,
      text that is not JSON is itself the setting, and a missing or
      unreadable file yields nothing. */
  function ReadSettingFile(h: Host, path: string, field: string): (r: Option<Value>)
    ensures h.files(path).None? ==> r.None?
    ensures h.files(path).Some? && h.json(Text.Strip(h.files(path).value)).None?
            ==> r == Some(Str(Text.Strip(h.files(path).value)))
    ensures h.files(path).Some? && h.json(Text.Strip(h.files(path).value)).Some?
            ==> var doc := h.json(Text.Strip(h.files(path).value)).value;
                (r.Some? <==> doc.Map? && field in doc.fields.entries)
                && (r.Some? ==> r.value == doc.fields.entries[field])
  {
    match h.files(path)
    case None => None
    case Some(raw) =>
      var content := Text.Strip(raw);
      match h.json(content)
      case None => Some(Str(content))
      case Some(doc) => doc.Field(field)
  }

  /** `read_prompt_file` (identical in both packages): the stripped file text,
      or ValueError when the file cannot be read. */
  function ReadPromptFile(h: Host, path: string): (r: Result<string, Nodes.Error>)
    ensures r.Ok? <==> h.files(path).Some?
    ensures r.Ok? ==> r.value == Text.Strip(h.files(path).value)
    ensures r.Err? ==> r.error == Nodes.ValueError
  {
    match h.files(path)
    case None => Err(Nodes.ValueError)
    case Some(raw) => Ok(Text.Strip(raw))
  }

  // ---------------------------------------------------------------------
  // touchfs prompts
  // ---------------------------------------------------------------------

  /** The module globals of the touchfs prompt configuration. */
  datatype PromptState = PromptState(lastFinal: string, filesystem: string, overlay: Option<string>)

  function InitialPromptState(): (st: PromptState)
    ensures GetLastFinalPrompt(st) == "" && GetCurrentFilesystemPrompt(st) == ""
    ensures st.overlay.None?
  {
    PromptState("", "", None)
  }

  function GetLastFinalPrompt(st: PromptState): string { st.lastFinal }

  function GetCurrentFilesystemPrompt(st: PromptState): string { st.filesystem }

  function SetLastFinalPrompt(st: PromptState, prompt: string): (r: PromptState)
    ensures GetLastFinalPrompt(r) == prompt
    ensures GetCurrentFilesystemPrompt(r) == GetCurrentFilesystemPrompt(st) && r.overlay == st.overlay
  {
    st.(lastFinal := prompt)
  }

  function SetCurrentFilesystemPrompt(st: PromptState, prompt: string): (r: PromptState)
    ensures GetCurrentFilesystemPrompt(r) == prompt
    ensures GetLastFinalPrompt(r) == GetLastFinalPrompt(st) && r.overlay == st.overlay
  {
    st.(filesystem := prompt)
  }

  function SetPromptOverlayPath(st: PromptState, path: Option<string>): (r: PromptState)
    ensures r.overlay == path
    ensures GetLastFinalPrompt(r) == GetLastFinalPrompt(st)
    ensures GetCurrentFilesystemPrompt(r) == GetCurrentFilesystemPrompt(st)
  {
    st.(overlay := path)
  }

  /** `get_prompt`: the argument, then TOUCHFS_PROMPT, then the template; the
      error reading the template raised is raised again. */
  function GetPrompt(h: Host, arg: Option<string>): (r: Result<string, Nodes.Error>)
    ensures Given(arg) ==> r == Ok(arg.value)
    ensures !Given(arg) && Given(h.env(PromptVar)) ==> r == Ok(h.env(PromptVar).value)
    ensures !Given(arg) && !Given(h.env(PromptVar)) ==> r == h.template
    ensures r.Err? ==> r.error == h.template.error
  {
    if Given(arg) then Ok(arg.value)
    else if Given(h.env(PromptVar)) then Ok(h.env(PromptVar).value)
    else h.template
  }

  /** `get_filesystem_generation_prompt`: the argument, then the environment, else nothing. */
  function GetFilesystemGenerationPrompt(h: Host, arg: Option<string>): (r: Option<string>)
    ensures r.Some? <==> Given(arg) || Given(h.env(FilesystemPromptVar))
    ensures Given(arg) ==> r == arg
    ensures r.Some? ==> |r.value| > 0 && (r == arg || r == h.env(FilesystemPromptVar))
  {
    if Given(arg) then arg
    else if Given(h.env(FilesystemPromptVar)) then h.env(FilesystemPromptVar)
    else None
  }

  /** `os.path.join(base, ".touchfs", name)`. */
  function InTouchfs(base: string, name: string): string
  {
    Paths.Join(Paths.Join(base, ".touchfs"), name)
  }

  function PromptIn(h: Host, base: string): Option<Value>
  {
    ReadSettingFile(h, Paths.Join(base, ".prompt"), "prompt")
  }

  function PromptDefaultIn(h: Host, base: string): Option<Value>
  {
    ReadSettingFile(h, InTouchfs(base, "prompt_default"), "prompt")
  }

  /** The template, or "" when it cannot be read. */
  function TemplateOrEmpty(h: Host): Value
  {
    Str(if h.template.Ok? then h.template.value else "")
  }

  /** `get_global_prompt`, written as the code is: argument, environment, the
      overlay's files (when an overlay is set), the working directory's files,
      the template. */
  function GetGlobalPrompt(h: Host, st: PromptState, arg: Option<string>): (r: Value)
    ensures Given(arg) ==> r == Str(arg.value)
    ensures !Given(arg) && Given(h.env(GlobalPromptVar)) ==> r == Str(h.env(GlobalPromptVar).value)
  {
    if Given(arg) then Str(arg.value)
    else if Given(h.env(GlobalPromptVar)) then Str(h.env(GlobalPromptVar).value)
    else if Given(st.overlay) && Hit(PromptIn(h, st.overlay.value)) then PromptIn(h, st.overlay.value).value
    else if Given(st.overlay) && Hit(PromptDefaultIn(h, st.overlay.value)) then PromptDefaultIn(h, st.overlay.value).value
    else if Hit(PromptIn(h, "")) then PromptIn(h, "").value
    else if Hit(PromptDefaultIn(h, "")) then PromptDefaultIn(h, "").value
    else TemplateOrEmpty(h)
  }

  /** The sources `get_global_prompt` consults, highest precedence first. */
  function GlobalPromptSources(h: Host, st: PromptState, arg: Option<string>): seq<Option<Value>>
  {
    [Lift(arg), Lift(h.env(GlobalPromptVar))]
    + (if Given(st.overlay) then [PromptIn(h, st.overlay.value), PromptDefaultIn(h, st.overlay.value)] else [])
    + [PromptIn(h, ""), PromptDefaultIn(h, "")]
  }

  /** The global prompt is the first accepted source in the order argument,
      TOUCHFS_GLOBAL_PROMPT, overlay `.prompt`, overlay
      `.touchfs/prompt_default`, working-directory `.prompt`,
      working-directory `.touchfs/prompt_default`, else the template (or ""). */
  lemma GlobalPromptPrecedence(h: Host, st: PromptState, arg: Option<string>)
    ensures GetGlobalPrompt(h, st, arg) == FirstHit(GlobalPromptSources(h, st, arg), TemplateOrEmpty(h))
  {
    var cwd1, cwd2 := PromptIn(h, ""), PromptDefaultIn(h, "");
    if Given(st.overlay) {
      FirstHitSix(Lift(arg), Lift(h.env(GlobalPromptVar)), PromptIn(h, st.overlay.value),
                  PromptDefaultIn(h, st.overlay.value), cwd1, cwd2, TemplateOrEmpty(h));
      FirstHitFour(PromptIn(h, st.overlay.value), PromptDefaultIn(h, st.overlay.value), cwd1, cwd2, TemplateOrEmpty(h));
    } else {
      assert GlobalPromptSources(h, st, arg) == [Lift(arg), Lift(h.env(GlobalPromptVar)), cwd1, cwd2];
      FirstHitFour(Lift(arg), Lift(h.env(GlobalPromptVar)), cwd1, cwd2, TemplateOrEmpty(h));
    }
  }

  /** With an overlay set, its `.prompt` shadows the working directory's,
      whatever the latter holds. */
  lemma OverlayShadowsCwdPrompt(h: Host, st: PromptState)
    requires !Given(h.env(GlobalPromptVar)) && Given(st.overlay)
    requires Hit(PromptIn(h, st.overlay.value))
    ensures GetGlobalPrompt(h, st, None) == PromptIn(h, st.overlay.value).value
  {
  }

  // ---------------------------------------------------------------------
  // touchfs model
  // ---------------------------------------------------------------------

  /** The module globals of the touchfs model configuration. */
  datatype ModelState = ModelState(current: string, overlay: Option<string>)

  function InitialModelState(): (st: ModelState)
    ensures st.current == DefaultModel && st.overlay.None?
  {
    ModelState(DefaultModel, None)
  }

  function SetModelOverlayPath(st: ModelState, path: Option<string>): (r: ModelState)
    ensures r.overlay == path && r.current == st.current
  {
    st.(overlay := path)
  }

  function ModelIn(h: Host, base: string): Option<Value>
  {
    ReadSettingFile(h, Paths.Join(base, ".model"), "model")
  }

  function ModelDefaultIn(h: Host, base: string): Option<Value>
  {
    ReadSettingFile(h, InTouchfs(base, "model_default"), "model")
  }

  /** `get_model`, written as the code is: the environment (stripped), the
      working directory's files, the overlay's files, the current model. */
  function GetModel(h: Host, st: ModelState): (r: Value)
    ensures Given(h.env(ModelVar)) ==> r == Str(Text.Strip(h.env(ModelVar).value))
  {
    if Given(h.env(ModelVar)) then Str(Text.Strip(h.env(ModelVar).value))
    else if Hit(ModelIn(h, "")) then ModelIn(h, "").value
    else if Hit(ModelDefaultIn(h, "")) then ModelDefaultIn(h, "").value
    else if Given(st.overlay) && Hit(ModelIn(h, st.overlay.value)) then ModelIn(h, st.overlay.value).value
    else if Given(st.overlay) && Hit(ModelDefaultIn(h, st.overlay.value)) then ModelDefaultIn(h, st.overlay.value).value
    else Str(st.current)
  }

  /** The model files `get_model` consults after the environment. */
  function ModelSources(h: Host, st: ModelState): seq<Option<Value>>
  {
    [ModelIn(h, ""), ModelDefaultIn(h, "")]
    + (if Given(st.overlay) then [ModelIn(h, st.overlay.value), ModelDefaultIn(h, st.overlay.value)] else [])
  }

  /** Without TOUCHFS_DEFAULT_MODEL the model is the first accepted file in
      the order working-directory `.model`, working-directory
      `.touchfs/model_default`, overlay `.model`, overlay
      `.touchfs/model_default`, else the current model: the working
      directory comes before the overlay, the reverse of prompt lookup. */
  lemma ModelPrecedence(h: Host, st: ModelState)
    requires !Given(h.env(ModelVar))
    ensures GetModel(h, st) == FirstHit(ModelSources(h, st), Str(st.current))
  {
    var cwd1, cwd2 := ModelIn(h, ""), ModelDefaultIn(h, "");
    if Given(st.overlay) {
      assert ModelSources(h, st) == [cwd1, cwd2, ModelIn(h, st.overlay.value), ModelDefaultIn(h, st.overlay.value)];
      FirstHitFour(cwd1, cwd2, ModelIn(h, st.overlay.value), ModelDefaultIn(h, st.overlay.value), Str(st.current));
    } else {
      assert ModelSources(h, st) == [cwd1, cwd2];
      FirstHitCons(cwd1, [cwd2], Str(st.current));
      FirstHitCons(cwd2, [], Str(st.current));
      assert [cwd1, cwd2] == [cwd1] + [cwd2];
      assert [cwd2] == [cwd2] + [];
    }
  }

  /** A TOUCHFS_DEFAULT_MODEL made only of whitespace is accepted before it
      is stripped, so the model becomes the empty string. */
  lemma BlankEnvModel(h: Host, st: ModelState)
    requires h.env(ModelVar) == Some(" ")
    ensures GetModel(h, st) == Str("")
  {
    assert Text.IsSpace(' ');
    assert Text.Strip(" ") == "";
  }

  /** `set_model`: stores the stripped name. Its whitespace guard compares the
      stripped name with itself stripped again, so it never raises. */
  function SetModel(st: ModelState, model: string): (r: Result<ModelState, Nodes.Error>)
    ensures r.Ok?
    ensures r.value.current == Text.Strip(model) && r.value.overlay == st.overlay
  {
    Text.StripOfStripped(model);
    var stripped := Text.Strip(model);
    if stripped != Text.Strip(stripped) then Err(Nodes.ValueError)
    else Ok(st.(current := stripped))
  }

  /** A name set with `set_model` is what `get_model` returns when neither
      the environment nor any model file supplies one. */
  lemma SetModelThenGet(h: Host, st: ModelState, model: string)
    requires !Given(h.env(ModelVar))
    requires forall i :: 0 <= i < |ModelSources(h, st)| ==> !Hit(ModelSources(h, st)[i])
    ensures GetModel(h, SetModel(st, model).value) == Str(Text.Strip(model))
  {
    var st' := SetModel(st, model).value;
    ModelFallback(h, st, st');
  }

  lemma ModelFallback(h: Host, st: ModelState, st': ModelState)
    requires !Given(h.env(ModelVar)) && st'.overlay == st.overlay
    requires forall i :: 0 <= i < |ModelSources(h, st)| ==> !Hit(ModelSources(h, st)[i])
    ensures GetModel(h, st') == Str(st'.current)
  {
    assert ModelSources(h, st') == ModelSources(h, st);
    ModelPrecedence(h, st');
    FirstHitFallback(ModelSources(h, st'), Str(st'.current));
  }

  /** `get_openai_key` (identical in both packages): the key, or ValueError
      when it is unset or empty. */
  function GetOpenaiKey(h: Host): (r: Result<string, Nodes.Error>)
    ensures r.Ok? <==> Given(h.env(KeyVar))
    ensures r.Ok? ==> r.value == h.env(KeyVar).value
    ensures r.Err? ==> r.error == Nodes.ValueError
  {
    if Given(h.env(KeyVar)) then Ok(h.env(KeyVar).value) else Err(Nodes.ValueError)
  }

  // ---------------------------------------------------------------------
  // llmfs settings
  // ---------------------------------------------------------------------

  /** llmfs `get_prompt`: a non-empty LLMFS_PROMPT wins over the argument; an
      argument naming a file yields the file's stripped text; any other
      non-empty argument is the prompt itself; otherwise ValueError. */
  function LlmfsGetPrompt(h: Host, arg: Option<string>): (r: Result<string, Nodes.Error>)
    ensures Given(h.env(LlmfsPromptVar)) ==> r == Ok(h.env(LlmfsPromptVar).value)
    ensures !Given(h.env(LlmfsPromptVar)) && Given(arg) && h.isFile(arg.value)
            ==> r == ReadPromptFile(h, arg.value)
    ensures !Given(h.env(LlmfsPromptVar)) && Given(arg) && !h.isFile(arg.value) ==> r == Ok(arg.value)
    ensures !Given(h.env(LlmfsPromptVar)) && !Given(arg) ==> r == Err(Nodes.ValueError)
    ensures r.Err? ==> r.error == Nodes.ValueError
  {
    if Given(h.env(LlmfsPromptVar)) then Ok(h.env(LlmfsPromptVar).value)
    else if Given(arg) then
      if h.isFile(arg.value) then ReadPromptFile(h, arg.value) else Ok(arg.value)
    else Err(Nodes.ValueError)
  }

  /** `get_log_dir`: LLMFS_LOG_DIR when it is set at all (even to ""), else
      "/var/log/llmfs". */
  function GetLogDir(h: Host): (r: string)
    ensures h.env(LogDirVar).Some? ==> r == h.env(LogDirVar).value
    ensures h.env(LogDirVar).None? ==> r == DefaultLogDir
  {
    match h.env(LogDirVar)
    case Some(d) => d
    case None => DefaultLogDir
  }
}
