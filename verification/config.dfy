/**
 The configuration plugin of the older package: `.llmfs/config.yaml` files
 placed in any directory form a hierarchy. Reading one yields the merge of
 every config file above it, root first; writing one merges the written
 mapping over that inherited configuration, provided it parses and passes
 validation, and otherwise keeps the inherited configuration.

 YAML parsing is a parameter (`None` standing for a `YAMLError`), and the
 result is the merged document itself rather than its `yaml.dump` text.
 */
module Config {
  import opened Wrappers
  import opened Dicts
  import Text
  import Paths
  import Nodes
  import Plugins
  import opened Values

  /** A parsed configuration: a mapping from keys to documents. */
  type Config = Dict<string, Value>

  const RootConfig: string := "/.llmfs/config.yaml"
  const ConfigSuffix: string := "/.llmfs/config.yaml"
  const LegacyConfig: string := "/config/config.yaml"
  /** Where a directory keeps its configuration, relative to it. */
  const ConfigRel: string := ".llmfs/config.yaml"
  const Sections: seq<string> := ["generation", "logging", "plugins"]

  /** `can_handle(path, node)`: any `.llmfs/config.yaml`, and `/config/config.yaml`. */
  predicate CanHandle(path: string)
  {
    Text.EndsWith(path, ConfigSuffix) || path == LegacyConfig
  }

  /** The plugin as the registries hold it. */
  function Plugin(): (g: Plugins.Plugin)
    ensures Plugins.NameOf(g) == "config" && Plugins.ProcFiles(g) == []
    ensures forall path, node :: Plugins.CanHandle(g, path, node) <==> CanHandle(path)
  {
    Plugins.Base("config", Plugins.Own((path: string, node: Nodes.Node) => CanHandle(path), []))
  }

  lemma CanHandleExamples()
    ensures CanHandle("/.llmfs/config.yaml") && CanHandle("/project/.llmfs/config.yaml")
    ensures !CanHandle("/config.yaml") && !CanHandle("/.llmfs/other.yaml")
  {
    assert Text.EndsWith("/.llmfs/config.yaml", ConfigSuffix);
    var p := "/project/.llmfs/config.yaml";
    assert p[|p| - |ConfigSuffix|..] == ConfigSuffix;
    assert !Text.EndsWith("/config.yaml", ConfigSuffix);
    assert |"/.llmfs/other.yaml"| < |ConfigSuffix|;
  }

  // ---------------------------------------------------------------------
  // Validation and loading
  // ---------------------------------------------------------------------

  /** A present section must be a mapping. */
  predicate SectionOk(config: Config, section: string)
  {
    section in config.entries ==> config.entries[section].Map?
  }

  /** A present `generation.model` must be a string. */
  predicate ModelOk(config: Config)
  {
    "generation" in config.entries && config.entries["generation"].Map? ==>
      config.entries["generation"].Field("model").Some? ==> config.entries["generation"].Field("model").value.Str?
  }

  /** `_validate_config(config)`: the section checks in order, then the model check. */
  function CheckSections(config: Config, sections: seq<string>): (r: bool)
    ensures r <==> forall i :: 0 <= i < |sections| ==> SectionOk(config, sections[i])
  {
    if |sections| == 0 then true
    else if sections[0] in config.entries && !config.entries[sections[0]].Map? then false
    else CheckSections(config, sections[1..])
  }

  function Validate(v: Value): (r: bool)
    ensures r <==> v.Map? && (forall i :: 0 <= i < |Sections| ==> SectionOk(v.fields, Sections[i])) && ModelOk(v.fields)
  {
    if !v.Map? then false
    else if !CheckSections(v.fields, Sections) then false
    else if "generation" in v.fields.entries then
      var gen := v.fields.entries["generation"];
      !(gen.Field("model").Some? && !gen.Field("model").value.Str?)
    else true
  }

  lemma ValidateExamples()
    ensures Validate(Map(Empty()))
    ensures Validate(Map(Empty<string, Value>().Put("generation", Map(Empty<string, Value>().Put("model", Str("gpt-4"))))))
    ensures !Validate(Null) && !Validate(List([])) && !Validate(Str("not a dict"))
    ensures !Validate(Map(Empty<string, Value>().Put("logging", Str("debug"))))
    ensures !Validate(Map(Empty<string, Value>().Put("generation", Map(Empty<string, Value>().Put("model", Int(4))))))
  {
    var ok := Empty<string, Value>().Put("generation", Map(Empty<string, Value>().Put("model", Str("gpt-4"))));
    assert SectionOk(ok, "logging") && SectionOk(ok, "plugins");
    var logging := Empty<string, Value>().Put("logging", Str("debug"));
    assert !SectionOk(logging, Sections[1]);
    var bad := Empty<string, Value>().Put("generation", Map(Empty<string, Value>().Put("model", Int(4))));
    assert !ModelOk(bad);
  }

  /** A mapping a parser yields is a well-formed dictionary. */
  ghost predicate Parser(parse: string -> Option<Value>)
  {
    forall s :: parse(s).Some? && parse(s).value.Map? ==> parse(s).value.fields.Valid()
  }

  /** `_load_yaml(content)`: empty text is the empty mapping; text that does
      not parse, or parses to something other than a mapping, is `None`. */
  function LoadYaml(content: string, parse: string -> Option<Value>): (r: Option<Config>)
    requires Parser(parse)
    ensures r.Some? ==> r.value.Valid()
    ensures |content| == 0 ==> r == Some(Empty())
    ensures |content| > 0 ==> (r.Some? <==> parse(content).Some? && parse(content).value.Map?)
    ensures |content| > 0 && r.Some? ==> parse(content) == Some(Map(r.value))
  {
    if |content| == 0 then Some(Empty())
    else
      match parse(content)
      case None => None
      case Some(v) => if v.Map? then Some(v.fields) else None
  }

  // ---------------------------------------------------------------------
  // Merging
  // ---------------------------------------------------------------------

  /** The keys of `ks` not among `a`, in order. */
  function Fresh(a: seq<string>, ks: seq<string>): (r: seq<string>)
  {
    if |ks| == 0 then []
    else if ks[0] in a then Fresh(a, ks[1..])
    else [ks[0]] + Fresh(a, ks[1..])
  }

  /** `d[k] = v`, on any representation. */
  function Assign(d: Config, k: string, v: Value): (r: Config)
    ensures d.Valid() ==> r == d.Put(k, v)
  {
    if k in d.keys then Dict(d.keys, d.entries[k := v]) else Dict(d.keys + [k], d.entries[k := v])
  }

  /** One value merged into another: mapping into mapping merges key by key,
      anything else is replaced. */
  function Deep(p: Value, c: Value): (r: Value)
    ensures !(p.Map? && c.Map?) ==> r == c
    ensures p.Map? && c.Map? ==> r.Map?
    decreases c, 1, 0
  {
    if p.Map? && c.Map? then Map(MergeKeys(p.fields, c.fields, c.fields.keys)) else c
  }

  /** The value `_merge_configs` stores under key `k` when the child has `v` there. */
  function Combined(merged: Config, k: string, v: Value): Value
    decreases v, 2, 0
  {
    if k in merged.entries then Deep(merged.entries[k], v) else v
  }

  /** The loop of `_merge_configs` over the keys `ks` of the child. A key
      without an entry does not occur in a well-formed mapping and is passed over. */
  function MergeKeys(merged: Config, child: Config, ks: seq<string>): Config
    decreases Map(child), 0, |ks|
  {
    if |ks| == 0 then merged
    else if ks[0] in child.entries then
      MergeKeys(Assign(merged, ks[0], Combined(merged, ks[0], child.entries[ks[0]])), child, ks[1..])
    else MergeKeys(merged, child, ks[1..])
  }

  /** The loop keeps the mapping well-formed and appends the child's new keys in order. */
  lemma {:induction false} MergeKeysKeys(merged: Config, child: Config, ks: seq<string>)
    requires merged.Valid()
    requires Distinct(ks) && forall i :: 0 <= i < |ks| ==> ks[i] in child.entries
    ensures MergeKeys(merged, child, ks).Valid()
    ensures MergeKeys(merged, child, ks).keys == merged.keys + Fresh(merged.keys, ks)
    decreases |ks|
  {
    if |ks| > 0 {
      var k := ks[0];
      var next := Assign(merged, k, Combined(merged, k, child.entries[k]));
      MergeKeysKeys(next, child, ks[1..]);
      assert ks == [k] + ks[1..];
      KeysStep(merged.keys, next.keys, k, ks[1..], MergeKeys(next, child, ks[1..]).keys);
    }
  }

  /** What the loop stores: keys outside `ks` keep their value, each key of
      `ks` gets its combined value. */
  lemma {:induction false} MergeKeysGet(merged: Config, child: Config, ks: seq<string>, k: string)
    requires merged.Valid()
    requires Distinct(ks) && forall i :: 0 <= i < |ks| ==> ks[i] in child.entries
    ensures k !in ks ==> MergeKeys(merged, child, ks).Get(k) == merged.Get(k)
    ensures k in ks ==> MergeKeys(merged, child, ks).Get(k) == Some(Combined(merged, k, child.entries[k]))
    decreases |ks|
  {
    if |ks| > 0 {
      var k0 := ks[0];
      var next := Assign(merged, k0, Combined(merged, k0, child.entries[k0]));
      MergeKeysGet(next, child, ks[1..], k);
      if k != k0 && k in ks {
        assert k in ks[1..];
        assert Combined(next, k, child.entries[k]) == Combined(merged, k, child.entries[k]);
      }
    }
  }

  /** The key order after one step of the loop and the rest of it. */
  lemma KeysStep(a: seq<string>, next: seq<string>, k: string, rest: seq<string>, r: seq<string>)
    requires next == if k in a then a else a + [k]
    requires r == next + Fresh(next, rest) && k !in rest
    ensures r == a + Fresh(a, [k] + rest)
  {
    FreshCons(a, k, rest);
    if k in a {
      assert Fresh(a, [k] + rest) == Fresh(a, rest);
      assert r == a + Fresh(a, rest);
    } else {
      FreshSkip(a, k, rest);
      var f := Fresh(a, rest);
      assert Fresh(a, [k] + rest) == [k] + f;
      assert r == (a + [k]) + f;
      assert (a + [k]) + f == a + ([k] + f);
    }
  }

  lemma FreshCons(a: seq<string>, k: string, rest: seq<string>)
    ensures Fresh(a, [k] + rest) == (if k in a then [] else [k]) + Fresh(a, rest)
  {
    assert ([k] + rest)[1..] == rest;
  }

  lemma {:induction false} FreshSkip(a: seq<string>, x: string, ks: seq<string>)
    requires x !in ks
    ensures Fresh(a + [x], ks) == Fresh(a, ks)
    decreases |ks|
  {
    if |ks| > 0 {
      FreshSkip(a, x, ks[1..]);
    }
  }

  /** `_merge_configs(parent, child)`: the child wins on every key it has,
      except that a mapping under a key where the parent also has a mapping
      is merged into it; keys only the parent has keep their values, and new
      keys follow the parent's in the child's order. */
  function Merge(parent: Config, child: Config): (r: Config)
    requires parent.Valid() && child.Valid()
    ensures r.Valid()
    ensures r.keys == parent.keys + Fresh(parent.keys, child.keys)
    ensures forall k :: k !in child.entries ==> r.Get(k) == parent.Get(k)
    ensures forall k :: k in child.entries && !(k in parent.entries && parent.entries[k].Map? && child.entries[k].Map?) ==>
              r.Get(k) == Some(child.entries[k])
    ensures forall k :: k in child.entries && k in parent.entries && parent.entries[k].Map? && child.entries[k].Map? ==>
              r.Get(k) == Some(Deep(parent.entries[k], child.entries[k]))
  {
    var r := MergeKeys(parent, child, child.keys);
    MergeKeysKeys(parent, child, child.keys);
    forall k
      ensures r.Get(k) == if k in child.entries then Some(Combined(parent, k, child.entries[k])) else parent.Get(k)
    {
      MergeKeysGet(parent, child, child.keys, k);
    }
    r
  }

  /** Two mappings under the same key are merged with `_merge_configs` itself. */
  lemma DeepMaps(p: Value, c: Value)
    requires p.Map? && c.Map? && p.fields.Valid() && c.fields.Valid()
    ensures Deep(p, c) == Map(Merge(p.fields, c.fields))
  {
  }

  /** Merging into the empty configuration gives the child unchanged. */
  lemma MergeIntoEmpty(c: Config)
    requires c.Valid()
    ensures Merge(Empty(), c) == c
  {
    var r := Merge(Empty(), c);
    FreshNone(c.keys);
    forall k
      ensures r.Get(k) == c.Get(k)
    {
    }
    SameLookups(r, c);
  }

  /** Two dictionaries with the same key order and the same lookups are equal. */
  lemma SameLookups(a: Config, b: Config)
    requires a.keys == b.keys && forall k :: a.Get(k) == b.Get(k)
    ensures a == b
  {
    forall k
      ensures (k in a.entries <==> k in b.entries) && (k in a.entries ==> a.entries[k] == b.entries[k])
    {
      assert a.Get(k) == b.Get(k);
    }
    assert a.entries == b.entries;
  }

  lemma {:induction false} FreshNone(ks: seq<string>)
    ensures Fresh([], ks) == ks
    decreases |ks|
  {
    if |ks| > 0 {
      FreshNone(ks[1..]);
    }
  }

  lemma {:induction false} FreshAll(a: seq<string>, ks: seq<string>)
    requires forall i :: 0 <= i < |ks| ==> ks[i] in a
    ensures Fresh(a, ks) == []
    decreases |ks|
  {
    if |ks| > 0 {
      FreshAll(a, ks[1..]);
    }
  }

  /** Merging a configuration into itself changes nothing, at every depth. */
  lemma {:induction false} MergeSelf(d: Config)
    requires Map(d).Valid()
    ensures Merge(d, d) == d
    decreases Map(d), 0
  {
    var r := Merge(d, d);
    FreshAll(d.keys, d.keys);
    forall k | k in d.entries
      ensures r.Get(k) == d.Get(k)
    {
      DeepSelf(d.entries[k]);
      assert Combined(d, k, d.entries[k]) == d.entries[k];
    }
    forall k
      ensures r.Get(k) == d.Get(k)
    {
    }
    SameLookups(r, d);
  }

  lemma {:induction false} DeepSelf(v: Value)
    requires v.Valid()
    ensures Deep(v, v) == v
    decreases v, 1
  {
    if v.Map? {
      MergeSelf(v.fields);
    }
  }

  // ---------------------------------------------------------------------
  // The directory hierarchy
  // ---------------------------------------------------------------------

  /** `os.path.join(dir, ".llmfs/config.yaml")`. */
  function ConfigAt(dir: string): string
  {
    Paths.Join(dir, ConfigRel)
  }

  /** One step of the root-down loop of `_get_parent_config`: the config file
      of `dir` is merged in when it is not the file being generated, exists,
      has content, and loads to a non-empty mapping. */
  function Layer(acc: Config, dir: string, skip: Option<string>, fs: Nodes.Store, parse: string -> Option<Value>): (r: Config)
    requires acc.Valid() && Parser(parse)
    ensures r.Valid()
  {
    var cp := ConfigAt(dir);
    if Some(cp) != skip && cp in fs.entries && Nodes.Truthy(fs.entries[cp].content) then
      match LoadYaml(Nodes.TextOf(fs.entries[cp].content), parse)
      case Some(cfg) => if |cfg.keys| > 0 then Merge(acc, cfg) else acc
      case None => acc
    else acc
  }

  /** The loop over the directories, root first. */
  function Walk(acc: Config, dirs: seq<string>, skip: Option<string>, fs: Nodes.Store, parse: string -> Option<Value>): (r: Config)
    requires acc.Valid() && Parser(parse)
    ensures r.Valid()
    decreases |dirs|
  {
    if |dirs| == 0 then acc
    else Walk(Layer(acc, dirs[0], skip, fs, parse), dirs[1..], skip, fs, parse)
  }

  lemma {:induction false} WalkSnoc(acc: Config, dirs: seq<string>, d: string, skip: Option<string>, fs: Nodes.Store, parse: string -> Option<Value>)
    requires acc.Valid() && Parser(parse)
    ensures Walk(acc, dirs + [d], skip, fs, parse) == Layer(Walk(acc, dirs, skip, fs, parse), d, skip, fs, parse)
    decreases |dirs|
  {
    if |dirs| == 0 {
      assert dirs + [d] == [d];
    } else {
      assert (dirs + [d])[1..] == dirs[1..] + [d];
      WalkSnoc(Layer(acc, dirs[0], skip, fs, parse), dirs[1..], d, skip, fs, parse);
    }
  }

  /** The skipped file only matters when some directory of the walk has it as its config file. */
  lemma {:induction false} WalkSkipUnused(acc: Config, dirs: seq<string>, skip: Option<string>, fs: Nodes.Store, parse: string -> Option<Value>)
    requires acc.Valid() && Parser(parse)
    requires forall i :: 0 <= i < |dirs| ==> Some(ConfigAt(dirs[i])) != skip
    ensures Walk(acc, dirs, skip, fs, parse) == Walk(acc, dirs, None, fs, parse)
    decreases |dirs|
  {
    if |dirs| > 0 {
      WalkSkipUnused(Layer(acc, dirs[0], skip, fs, parse), dirs[1..], skip, fs, parse);
    }
  }

  /** The directories from "/" down to `dir`: the reversed list the
      `while True` loop builds by taking `Path.parent` until it reaches "/". */
  function Chain(dir: string): (r: seq<string>)
    requires Paths.Canonical(dir)
    ensures |r| >= 1 && r[0] == "/" && r[|r| - 1] == dir
    ensures forall i :: 0 <= i < |r| ==> Paths.Canonical(r[i]) && |r[i]| <= |dir|
    ensures forall i :: 0 < i < |r| ==> r[i - 1] == Paths.Dirname(r[i])
    decreases |dir|
  {
    if dir == "/" then ["/"]
    else
      Paths.CanonicalParent(dir);
      Chain(Paths.Dirname(dir)) + [dir]
  }

  lemma DirnameRoot()
    ensures Paths.Dirname("/") == "/"
  {
    assert Paths.RFind("/", '/') == 0;
    assert "/"[..1] == "/";
  }

  /** The configuration in effect in directory `dir`: every config file from
      the root down to `dir` itself, merged in that order. */
  function Effective(dir: string, fs: Nodes.Store, parse: string -> Option<Value>): (r: Config)
    requires Paths.Canonical(dir) && Parser(parse)
    ensures r.Valid()
  {
    Walk(Empty(), Chain(dir), None, fs, parse)
  }

  /** `_get_parent_config(path, fs)`. The walk starts at the parent of the
      `.llmfs` directory and never reaches "/" from a relative path, so the
      path is a normalised absolute one. */
  function ParentConfig(path: string, fs: Nodes.Store, parse: string -> Option<Value>): (r: Config)
    requires Paths.Canonical(path) && Parser(parse)
    ensures r.Valid()
    ensures path == RootConfig ==> r == Empty()
  {
    if path == RootConfig then Empty()
    else
      var start := Paths.Dirname(Paths.Dirname(path));
      DirnameCanonical(path);
      DirnameCanonical(Paths.Dirname(path));
      Walk(Empty(), Chain(start), Some(path), fs, parse)
  }

  lemma DirnameCanonical(p: string)
    requires Paths.Canonical(p)
    ensures Paths.Canonical(Paths.Dirname(p))
  {
    if p == "/" {
      DirnameRoot();
    } else {
      Paths.CanonicalParent(p);
    }
  }

  /** The config file of a normalised directory is a normalised path two
      levels below it, and it is the root config file only for "/". */
  lemma ConfigAtParts(dir: string)
    requires Paths.Canonical(dir)
    ensures Paths.Canonical(ConfigAt(dir))
    ensures Paths.Dirname(Paths.Dirname(ConfigAt(dir))) == dir
    ensures |ConfigAt(dir)| == (if dir == "/" then 0 else |dir|) + |ConfigSuffix|
    ensures ConfigAt(dir) == RootConfig <==> dir == "/"
  {
    ConfigNames();
    var llmfs := Paths.Child(dir, ".llmfs");
    Paths.ChildCanonical(dir, ".llmfs");
    Paths.ChildCanonical(llmfs, "config.yaml");
    Paths.ChildParts(dir, ".llmfs");
    Paths.ChildParts(llmfs, "config.yaml");
    ConfigAtChild(dir);
    if dir == "/" {
      assert ConfigAt(dir) == "/" + ConfigRel;
    } else {
      assert |dir| >= 1;
    }
  }

  lemma ConfigNames()
    ensures Paths.ValidName(".llmfs") && Paths.ValidName("config.yaml")
    ensures ConfigRel == ".llmfs" + "/" + "config.yaml" && ConfigSuffix == "/" + ConfigRel
  {
  }

  /** `os.path.join(dir, ".llmfs/config.yaml")` links `.llmfs` under the
      directory and `config.yaml` under that. */
  lemma ConfigAtChild(dir: string)
    requires Paths.Canonical(dir)
    ensures ConfigAt(dir) == Paths.Child(Paths.Child(dir, ".llmfs"), "config.yaml")
    ensures |ConfigAt(dir)| == (if dir == "/" then 0 else |dir|) + |ConfigSuffix|
  {
    ConfigNames();
    var a, b := ".llmfs", "config.yaml";
    if dir == "/" {
      assert Paths.Child(dir, a) == dir + a;
      assert Paths.Child(dir + a, b) == dir + a + "/" + b;
      assert ConfigAt(dir) == dir + ConfigRel;
    } else {
      Paths.LastComponentNonEmpty(dir);
      assert Paths.Child(dir, a) == dir + "/" + a;
      assert Paths.Child(dir + "/" + a, b) == dir + "/" + a + "/" + b;
      assert ConfigAt(dir) == dir + "/" + ConfigRel;
    }
  }

  /** The config files of the directories on a walk are all shorter than the
      config file of a directory below them, so none is skipped. */
  lemma ChainMissesBelow(dir: string, below: string)
    requires Paths.Canonical(dir) && Paths.Canonical(below) && |dir| < |below|
    ensures forall i :: 0 <= i < |Chain(dir)| ==> Some(ConfigAt(Chain(dir)[i])) != Some(ConfigAt(below))
  {
    var c := Chain(dir);
    ConfigAtParts(below);
    forall i | 0 <= i < |c|
      ensures ConfigAt(c[i]) != ConfigAt(below)
    {
      ConfigAtParts(c[i]);
    }
  }

  /** A config file's parent configuration is the configuration in effect in
      the directory above the one that holds it; at the root it is empty. */
  lemma ParentIsEffectiveAbove(dir: string, fs: Nodes.Store, parse: string -> Option<Value>)
    requires Paths.Canonical(dir) && Parser(parse)
    ensures Paths.Canonical(ConfigAt(dir))
    ensures dir == "/" ==> ParentConfig(ConfigAt(dir), fs, parse) == Empty()
    ensures dir != "/" ==>
              Paths.Canonical(Paths.Dirname(dir))
              && ParentConfig(ConfigAt(dir), fs, parse) == Effective(Paths.Dirname(dir), fs, parse)
  {
    ConfigAtParts(dir);
    if dir != "/" {
      var path := ConfigAt(dir);
      var up := Paths.Dirname(dir);
      Paths.CanonicalParent(dir);
      assert Chain(dir) == Chain(up) + [dir];
      WalkSnoc(Empty(), Chain(up), dir, Some(path), fs, parse);
      ChainMissesBelow(up, dir);
      WalkSkipUnused(Empty(), Chain(up), Some(path), fs, parse);
    }
  }

  /** Deeper directories take precedence: the configuration in effect in a
      directory is the one in effect above it with the directory's own
      config file merged over it. */
  lemma EffectiveStep(dir: string, fs: Nodes.Store, parse: string -> Option<Value>)
    requires Paths.Canonical(dir) && Parser(parse)
    ensures dir == "/" ==> Effective(dir, fs, parse) == Layer(Empty(), "/", None, fs, parse)
    ensures dir != "/" ==>
              Paths.Canonical(Paths.Dirname(dir))
              && Effective(dir, fs, parse) == Layer(Effective(Paths.Dirname(dir), fs, parse), dir, None, fs, parse)
  {
    if dir != "/" {
      Paths.CanonicalParent(dir);
      var up := Paths.Dirname(dir);
      assert Chain(dir) == Chain(up) + [dir];
      WalkSnoc(Empty(), Chain(up), dir, None, fs, parse);
    } else {
      assert Chain(dir) == [] + ["/"];
      WalkSnoc(Empty(), [], "/", None, fs, parse);
    }
  }

  // ---------------------------------------------------------------------
  // Generation
  // ---------------------------------------------------------------------

  /** `generate(path, node, fs)`: the merged document that is dumped as YAML. */
  function Generate(path: string, node: Nodes.Node, fs: Nodes.Store, parse: string -> Option<Value>): (r: Config)
    requires Paths.Canonical(path) && Parser(parse)
    ensures r.Valid()
  {
    var parent := ParentConfig(path, fs, parse);
    if Nodes.Truthy(node.content) then
      match LoadYaml(Nodes.TextOf(node.content), parse)
      case None => parent
      case Some(cfg) => if |cfg.keys| == 0 || !Validate(Map(cfg)) then parent else Merge(parent, cfg)
    else parent
  }

  /** Reading a config file, or writing one that does not parse to a
      non-empty valid mapping, yields the inherited configuration. */
  lemma GenerateKeepsParent(path: string, node: Nodes.Node, fs: Nodes.Store, parse: string -> Option<Value>)
    requires Paths.Canonical(path) && Parser(parse)
    requires var written := LoadYaml(Nodes.TextOf(node.content), parse);
             !Nodes.Truthy(node.content) || written.None? || |written.value.keys| == 0 || !Validate(Map(written.value))
    ensures Generate(path, node, fs, parse) == ParentConfig(path, fs, parse)
  {
  }

  /** Writing a valid configuration keeps every inherited key and gives each
      written setting that is not a mapping exactly the written value. */
  lemma WrittenSettingsWin(path: string, node: Nodes.Node, fs: Nodes.Store, parse: string -> Option<Value>, k: string)
    requires Paths.Canonical(path) && Parser(parse)
    requires Nodes.Truthy(node.content)
    requires var written := LoadYaml(Nodes.TextOf(node.content), parse);
             written.Some? && |written.value.keys| > 0 && Validate(Map(written.value))
    ensures var r := Generate(path, node, fs, parse);
            var written := LoadYaml(Nodes.TextOf(node.content), parse).value;
            && (forall k :: k in ParentConfig(path, fs, parse).entries ==> k in r.entries)
            && (k in written.entries && !written.entries[k].Map? ==> r.Get(k) == Some(written.entries[k]))
            && (k !in written.entries ==> r.Get(k) == ParentConfig(path, fs, parse).Get(k))
  {
  }
}
