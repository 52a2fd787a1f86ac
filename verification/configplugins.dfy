/**
 The configuration plugins: the model and prompt plugins, which resolve a
 setting from the nearest configuration file, the node's own content or the
 global default, and the llmfs generation-model plugin.

 The nearest-file search (`find_nearest_model_file`,
 `find_nearest_prompt_file`) is not part of this model: its answer is a
 parameter. So are the global getters the plugins fall back to, whose
 value at the time of the call is passed in, and the setters they call,
 whose argument is returned in the outcome.
 */
module ConfigPlugins {
  import opened Wrappers
  import opened Values
  import Text
  import Nodes
  import Plugins

  /** The JSON decoder behind pydantic's `model_validate_json`; None when the
      text is not JSON. */
  type Json = string -> Option<Value>

  const TouchfsModel: Plugins.Plugin := Plugins.Base("model", Plugins.Proc(Plugins.TouchfsDir, "model.default"))
  const LlmfsModel: Plugins.Plugin := Plugins.Base("model", Plugins.Proc(Plugins.LlmfsDir, "model.default"))
  const LlmfsPrompt: Plugins.Plugin := Plugins.Base("prompt", Plugins.Proc(Plugins.LlmfsDir, "prompt.default"))
  const GenerationModel: Plugins.Plugin := Plugins.Base("generation_model", Plugins.Proc(Plugins.LlmfsDir, "generation.model"))
  /** The default of `GenerationConfig.model`. */
  const GenerationDefault := "gpt-4o-2024-08-06"

  /** Each configuration plugin claims exactly its one overlay file. */
  lemma ProcPaths(path: string, node: Nodes.Node)
    ensures Plugins.CanHandle(TouchfsModel, path, node) <==> path == Plugins.TouchfsDir + "model.default"
    ensures Plugins.CanHandle(LlmfsModel, path, node) <==> path == Plugins.LlmfsDir + "model.default"
    ensures Plugins.CanHandle(LlmfsPrompt, path, node) <==> path == Plugins.LlmfsDir + "prompt.default"
    ensures Plugins.CanHandle(GenerationModel, path, node) <==> path == Plugins.LlmfsDir + "generation.model"
    ensures |Plugins.ProcFiles(LlmfsModel)| == 1 && Plugins.ProcFiles(LlmfsModel)[0].path == Plugins.LlmfsDir + "model.default"
    ensures |Plugins.ProcFiles(LlmfsPrompt)| == 1 && Plugins.ProcFiles(LlmfsPrompt)[0].path == Plugins.LlmfsDir + "prompt.default"
  {
  }

  // ---------------------------------------------------------------------
  // Reading one setting
  // ---------------------------------------------------------------------

  /** `Config.model_validate_json(text)` for a pydantic model with one string
      field `field` defaulting to `default`: a JSON object gives its string
      field, or the default when the field is absent; every other document,
      a non-string field, and text that is not JSON fail validation. Unknown
      fields are ignored. */
  function ValidateField(json: Json, text: string, field: string, default: string): (r: Option<string>)
    ensures r.Some? ==> json(text).Some? && json(text).value.Map?
    ensures json(text).Some? && json(text).value.Map? && json(text).value.Field(field).None?
            ==> r == Some(default)
    ensures json(text).Some? && json(text).value.Field(field).Some?
            ==> (r.Some? <==> json(text).value.Field(field).value.Str?)
                && (r.Some? ==> r.value == json(text).value.Field(field).value.s)
  {
    match json(text)
    case Some(Map(fields)) =>
      (match fields.Get(field)
       case None => Some(default)
       case Some(Str(s)) => Some(s)
       case Some(_) => None)
    case _ => None
  }

  /** The `try: validate / except: strip` step: a validated setting, or the
      stripped raw text when validation fails for any reason. */
  function ParseSetting(json: Json, text: string, field: string, default: string): (r: string)
    ensures ValidateField(json, text, field, default).Some? ==> r == ValidateField(json, text, field, default).value
    ensures ValidateField(json, text, field, default).None? ==> r == Text.Strip(text)
  {
    match ValidateField(json, text, field, default)
    case Some(v) => v
    case None => Text.Strip(text)
  }

  /** The touchfs model plugin's variant: the raw fallback is guarded by a
      check that the stripped text equals itself stripped again, which never
      fails, so the guard never raises. */
  function TouchfsParseModel(json: Json, text: string, default: string): (r: Result<string, Nodes.Error>)
    ensures r == Ok(ParseSetting(json, text, "model", default))
  {
    match ValidateField(json, text, "model", default)
    case Some(v) => Ok(v)
    case None =>
      Text.StripOfStripped(text);
      var content := Text.Strip(text);
      if content != Text.Strip(content) then Err(Nodes.ValueError) else Ok(content)
  }

  // ---------------------------------------------------------------------
  // The three-way fallback
  // ---------------------------------------------------------------------

  /** The branch the plugins take. */
  datatype Source = NearestFile(path: string) | OwnContent | Fallback

  /** The nearest configuration file is used when the search found one, it
      is not the file being generated, and it has content. */
  predicate UsableNearest(path: string, fs: Nodes.Store, nearest: Option<string>)
  {
    nearest.Some? && |nearest.value| > 0 && nearest.value != path
    && fs.Has(nearest.value) && Nodes.Truthy(fs.entries[nearest.value].content)
  }

  function PickSource(path: string, node: Nodes.Node, fs: Nodes.Store, nearest: Option<string>): (s: Source)
    ensures s.NearestFile? <==> UsableNearest(path, fs, nearest)
    ensures s.NearestFile? ==> Some(s.path) == nearest && s.path != path
    ensures s.OwnContent? <==> !UsableNearest(path, fs, nearest) && Nodes.Truthy(node.content)
  {
    if UsableNearest(path, fs, nearest) then NearestFile(nearest.value)
    else if Nodes.Truthy(node.content) then OwnContent
    else Fallback
  }

  /** The setting a plugin resolves from files, or None when it falls back
      to the global value. */
  function Resolve(path: string, node: Nodes.Node, fs: Nodes.Store, nearest: Option<string>,
                   json: Json, field: string, default: string): (r: Option<string>)
    ensures UsableNearest(path, fs, nearest)
            ==> r == Some(ParseSetting(json, Nodes.TextOf(fs.entries[nearest.value].content), field, default))
    ensures !UsableNearest(path, fs, nearest) && Nodes.Truthy(node.content)
            ==> r == Some(ParseSetting(json, Nodes.TextOf(node.content), field, default))
    ensures r.None? <==> !UsableNearest(path, fs, nearest) && !Nodes.Truthy(node.content)
  {
    match PickSource(path, node, fs, nearest)
    case NearestFile(p) => Some(ParseSetting(json, Nodes.TextOf(fs.entries[p].content), field, default))
    case OwnContent => Some(ParseSetting(json, Nodes.TextOf(node.content), field, default))
    case Fallback => None
  }

  /** A search that answers with the file being generated changes nothing:
      the plugin proceeds exactly as if no file had been found. */
  lemma ResolveIgnoresSelf(path: string, node: Nodes.Node, fs: Nodes.Store, json: Json, field: string, default: string)
    ensures Resolve(path, node, fs, Some(path), json, field, default) == Resolve(path, node, fs, None, json, field, default)
  {
  }

  /** What a generate call produces: its text, and the argument it passed to
      the global setter (None when the setter is not called). */
  datatype Outcome = Outcome(text: string, setTo: Option<string>)

  /** touchfs `ModelPlugin.generate`. `importDefault` is the value
      `get_model()` had when the plugin was imported (the pydantic field
      default) and `current` the value it has now. The model is returned
      without a trailing newline and is set globally unless it is the
      fallback. */
  function TouchfsModelGenerate(path: string, node: Nodes.Node, fs: Nodes.Store, nearest: Option<string>,
                                json: Json, importDefault: string, current: string): (r: Result<Outcome, Nodes.Error>)
    ensures r.Ok?
    ensures var m := Resolve(path, node, fs, nearest, json, "model", importDefault);
            && (m.Some? ==> r.value == Outcome(m.value, m))
            && (m.None? ==> r.value == Outcome(current, None))
  {
    match PickSource(path, node, fs, nearest)
    case NearestFile(p) =>
      (match TouchfsParseModel(json, Nodes.TextOf(fs.entries[p].content), importDefault)
       case Ok(model) => Ok(Outcome(model, Some(model)))
       case Err(e) => Err(e))
    case OwnContent =>
      (match TouchfsParseModel(json, Nodes.TextOf(node.content), importDefault)
       case Ok(model) => Ok(Outcome(model, Some(model)))
       case Err(e) => Err(e))
    case Fallback => Ok(Outcome(current, None))
  }

  /** The shared shape of the llmfs model and prompt plugins: the resolved
      setting (or the fallback) followed by a newline, with the setter called
      only for a resolved setting. */
  function LlmfsGenerate(path: string, node: Nodes.Node, fs: Nodes.Store, nearest: Option<string>,
                         json: Json, field: string, importDefault: string, current: string): (r: Outcome)
    ensures var m := Resolve(path, node, fs, nearest, json, field, importDefault);
            && r.setTo == m
            && r.text == (if m.Some? then m.value else current) + "\n"
  {
    match PickSource(path, node, fs, nearest)
    case NearestFile(p) =>
      var v := ParseSetting(json, Nodes.TextOf(fs.entries[p].content), field, importDefault);
      Outcome(v + "\n", Some(v))
    case OwnContent =>
      var v := ParseSetting(json, Nodes.TextOf(node.content), field, importDefault);
      Outcome(v + "\n", Some(v))
    case Fallback => Outcome(current + "\n", None)
  }

  /** llmfs `ModelPlugin.generate`; `current` is `get_model()` at call time. */
  function LlmfsModelGenerate(path: string, node: Nodes.Node, fs: Nodes.Store, nearest: Option<string>,
                              json: Json, importDefault: string, current: string): (r: Outcome)
    ensures Text.EndsWith(r.text, "\n")
    ensures r.setTo.Some? <==> PickSource(path, node, fs, nearest) != Fallback
    ensures r.setTo.Some? ==> r.text == r.setTo.value + "\n"
    ensures r.setTo.None? ==> r.text == current + "\n"
  {
    LlmfsGenerate(path, node, fs, nearest, json, "model", importDefault, current)
  }

  /** llmfs `PromptPlugin.generate`; `current` is `get_global_prompt()` at call time. */
  function LlmfsPromptGenerate(path: string, node: Nodes.Node, fs: Nodes.Store, nearest: Option<string>,
                               json: Json, importDefault: string, current: string): (r: Outcome)
    ensures Text.EndsWith(r.text, "\n")
    ensures r.setTo.Some? <==> PickSource(path, node, fs, nearest) != Fallback
    ensures r.setTo.Some? ==> r.text == r.setTo.value + "\n"
    ensures r.setTo.None? ==> r.text == current + "\n"
  {
    LlmfsGenerate(path, node, fs, nearest, json, "prompt", importDefault, current)
  }

  /** Both packages' model plugins resolve the same model; the llmfs one only
      adds the newline. */
  lemma ModelPluginsAgree(path: string, node: Nodes.Node, fs: Nodes.Store, nearest: Option<string>,
                          json: Json, importDefault: string, current: string)
    ensures var t := TouchfsModelGenerate(path, node, fs, nearest, json, importDefault, current).value;
            LlmfsModelGenerate(path, node, fs, nearest, json, importDefault, current)
              == Outcome(t.text + "\n", t.setTo)
  {
  }

  /** Raw (non-JSON) content is used stripped. */
  lemma RawContentStripped(path: string, node: Nodes.Node, fs: Nodes.Store, json: Json,
                           field: string, default: string)
    requires node.content.Text? && |node.content.text| > 0 && json(node.content.text).None?
    ensures Resolve(path, node, fs, None, json, field, default) == Some(Text.Strip(node.content.text))
  {
  }

  /** llmfs `GenerationModelPlugin.generate`: content is validated as a
      `GenerationConfig` (a failure propagates); empty content yields the
      default model. */
  function GenerationGenerate(node: Nodes.Node, json: Json): (r: Result<string, Nodes.Error>)
    ensures !Nodes.Truthy(node.content) ==> r == Ok(GenerationDefault)
    ensures Nodes.Truthy(node.content) ==>
              (r.Ok? <==> ValidateField(json, Nodes.TextOf(node.content), "model", GenerationDefault).Some?)
    ensures r.Ok? && Nodes.Truthy(node.content) ==>
              r.value == ValidateField(json, Nodes.TextOf(node.content), "model", GenerationDefault).value
    ensures r.Err? ==> r.error == Nodes.ValidationError
  {
    if Nodes.Truthy(node.content) then
      match ValidateField(json, Nodes.TextOf(node.content), "model", GenerationDefault)
      case Some(m) => Ok(m)
      case None => Err(Nodes.ValidationError)
    else Ok(GenerationDefault)
  }

  /** A JSON object naming a model yields that model; one without a model
      field yields the default; text that is not JSON is rejected. */
  lemma GenerationCases(node: Nodes.Node, json: Json, m: string)
    requires node.content.Text? && |node.content.text| > 0
    ensures json(node.content.text).Some? && json(node.content.text).value.Field("model") == Some(Str(m))
            ==> GenerationGenerate(node, json) == Ok(m)
    ensures json(node.content.text).Some? && json(node.content.text).value.Map?
            && json(node.content.text).value.Field("model").None?
            ==> GenerationGenerate(node, json) == Ok(GenerationDefault)
    ensures json(node.content.text).None? ==> GenerationGenerate(node, json) == Err(Nodes.ValidationError)
  {
  }
}
