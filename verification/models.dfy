/**
 The pydantic models of a generated filesystem: `FileAttrs`, `FileNode`,
 `FileSystem` and `GeneratedContent`, with the validation pydantic applies to
 a parsed document (required fields, defaults, literal types, and no coercion
 of other types to strings).
 */
module Models {
  import opened Wrappers
  import opened Dicts
  import opened Values
  import Nodes

  datatype FileAttrs = FileAttrs(stMode: string, stUid: Option<string>, stGid: Option<string>)

  datatype FileNode = FileNode(
    kind: Nodes.Kind,
    content: Option<string>,
    children: Option<Dict<string, string>>,
    attrs: FileAttrs,
    xattrs: Option<Dict<string, string>>)
  {
    ghost predicate Valid()
    {
      (children.Some? ==> children.value.Valid()) && (xattrs.Some? ==> xattrs.value.Valid())
    }
  }

  /** `Literal["file", "directory", "symlink"]`. */
  function ParseKind(v: Value): (r: Option<Nodes.Kind>)
    ensures r.Some? <==> v.Str? && (v.s == "file" || v.s == "directory" || v.s == "symlink")
    ensures r.Some? ==> v.s == KindName(r.value)
  {
    match v
    case Str(s) =>
      if s == "file" then Some(Nodes.File)
      else if s == "directory" then Some(Nodes.Directory)
      else if s == "symlink" then Some(Nodes.Symlink)
      else None
    case _ => None
  }

  function KindName(k: Nodes.Kind): string
  {
    match k
    case File => "file"
    case Directory => "directory"
    case Symlink => "symlink"
  }

  lemma KindNameParses(k: Nodes.Kind)
    ensures ParseKind(Str(KindName(k))) == Some(k)
  {
    match k
    case File =>
    case Directory =>
    case Symlink =>
  }

  /** An `Optional[str] = None` field: absent or null is `None`, a string is
      kept, anything else is rejected. */
  function OptionalStr(field: Option<Value>): (r: Result<Option<string>, Nodes.Error>)
    ensures r.Ok? <==> field.None? || field.value.Null? || field.value.Str?
    ensures r.Ok? && r.value.Some? ==> field == Some(Str(r.value.value))
  {
    match field
    case None => Ok(None)
    case Some(Null) => Ok(None)
    case Some(Str(s)) => Ok(Some(s))
    case Some(_) => Err(Nodes.ValidationError)
  }

  /** An `Optional[Dict[str, str]] = None` field. */
  function OptionalStrMap(field: Option<Value>): (r: Result<Option<Dict<string, string>>, Nodes.Error>)
    requires field.Some? ==> field.value.Valid()
    ensures r.Ok? <==> field.None? || field.value.Null? || StrMap(field.value).Some?
    ensures r.Ok? && r.value.Some? ==> r.value.value.Valid()
  {
    match field
    case None => Ok(None)
    case Some(Null) => Ok(None)
    case Some(v) => match StrMap(v) { case Some(d) => Ok(Some(d)) case None => Err(Nodes.ValidationError) }
  }

  /** `FileAttrs(**attrs)`: `st_mode` is a required string. */
  function ParseAttrs(v: Value): (r: Result<FileAttrs, Nodes.Error>)
    ensures r.Ok? ==> v.Field("st_mode") == Some(Str(r.value.stMode))
    ensures v.Field("st_mode").None? ==> r.Err?
  {
    if !v.Map? then Err(Nodes.ValidationError)
    else match v.Field("st_mode")
      case Some(Str(mode)) =>
        (match (OptionalStr(v.Field("st_uid")), OptionalStr(v.Field("st_gid")))
         case (Ok(u), Ok(g)) => Ok(FileAttrs(mode, u, g))
         case _ => Err(Nodes.ValidationError))
      case _ => Err(Nodes.ValidationError)
  }

  /** `FileNode.model_validate(v)`: a literal type, content defaulting to "",
      optional children and xattrs, and required attributes. */
  function ParseNode(v: Value): (r: Result<FileNode, Nodes.Error>)
    requires v.Valid()
    ensures r.Ok? ==> v.Map? && r.value.Valid()
    ensures r.Ok? ==> v.Field("type").Some? && ParseKind(v.Field("type").value) == Some(r.value.kind)
    ensures r.Ok? && v.Field("content").None? ==> r.value.content == Some("")
    ensures r.Ok? && v.Field("content") == Some(Null) ==> r.value.content.None?
    ensures v.Field("type").None? || v.Field("attrs").None? ==> r.Err?
  {
    if !v.Map? then Err(Nodes.ValidationError)
    else NodeOfFields(v.Field("type"), v.Field("content"), v.Field("children"), v.Field("attrs"), v.Field("xattrs"))
  }

  /** The field-by-field validation of a `FileNode`. */
  function NodeOfFields(t: Option<Value>, c: Option<Value>, ch: Option<Value>, a: Option<Value>, x: Option<Value>)
    : (r: Result<FileNode, Nodes.Error>)
    requires ch.Some? ==> ch.value.Valid()
    requires x.Some? ==> x.value.Valid()
    ensures r.Ok? ==> r.value.Valid()
    ensures r.Ok? ==> t.Some? && ParseKind(t.value) == Some(r.value.kind)
    ensures r.Ok? && c.None? ==> r.value.content == Some("")
    ensures r.Ok? && c == Some(Null) ==> r.value.content.None?
    ensures t.None? || a.None? ==> r.Err?
  {
    var kind := if t.Some? then ParseKind(t.value) else None;
    var content := if c.None? then Ok(Some("")) else OptionalStr(c);
    var children := OptionalStrMap(ch);
    var xattrs := OptionalStrMap(x);
    var attrs := if a.Some? then ParseAttrs(a.value) else Err(Nodes.ValidationError);
    if kind.Some? && content.Ok? && children.Ok? && xattrs.Ok? && attrs.Ok? then
      Ok(FileNode(kind.value, content.value, children.value, attrs.value, xattrs.value))
    else Err(Nodes.ValidationError)
  }

  function OptStrValue(o: Option<string>): Value
  {
    if o.Some? then Str(o.value) else Null
  }

  /** `FileAttrs.model_dump()`. */
  function DumpAttrs(a: FileAttrs): (v: Value)
    ensures v.Valid() && v.Map?
  {
    Object([("st_mode", Str(a.stMode)), ("st_uid", OptStrValue(a.stUid)), ("st_gid", OptStrValue(a.stGid))])
  }

  function OptMapValue(o: Option<Dict<string, string>>): (v: Value)
    requires o.Some? ==> o.value.Valid()
    ensures v.Valid()
  {
    if o.Some? then FromStrMap(o.value) else Null
  }

  function NodePairs(n: FileNode): (ps: seq<(string, Value)>)
    requires n.Valid()
    ensures |ps| == 5 && forall i :: 0 <= i < |ps| ==> ps[i].1.Valid()
    ensures ps[0].0 == "type" && ps[1].0 == "content" && ps[2].0 == "children"
    ensures ps[3].0 == "attrs" && ps[4].0 == "xattrs"
    ensures ps[0].1 == Str(KindName(n.kind)) && ps[1].1 == OptStrValue(n.content)
    ensures ps[2].1 == OptMapValue(n.children) && ps[3].1 == DumpAttrs(n.attrs)
    ensures ps[4].1 == OptMapValue(n.xattrs)
  {
    [("type", Str(KindName(n.kind))),
     ("content", OptStrValue(n.content)),
     ("children", OptMapValue(n.children)),
     ("attrs", DumpAttrs(n.attrs)),
     ("xattrs", OptMapValue(n.xattrs))]
  }

  /** `FileNode.model_dump()`. */
  function DumpNode(n: FileNode): (v: Value)
    requires n.Valid()
    ensures v.Valid() && v.Map?
  {
    Object(NodePairs(n))
  }

  lemma DumpAttrsFields(a: FileAttrs)
    ensures DumpAttrs(a).Field("st_mode") == Some(Str(a.stMode))
    ensures DumpAttrs(a).Field("st_uid") == Some(OptStrValue(a.stUid))
    ensures DumpAttrs(a).Field("st_gid") == Some(OptStrValue(a.stGid))
  {
    var ps := [("st_mode", Str(a.stMode)), ("st_uid", OptStrValue(a.stUid)), ("st_gid", OptStrValue(a.stGid))];
    ObjectField(ps, 0);
    ObjectField(ps, 1);
    ObjectField(ps, 2);
  }

  lemma ParseDumpAttrs(a: FileAttrs)
    ensures ParseAttrs(DumpAttrs(a)) == Ok(a)
  {
    DumpAttrsFields(a);
    var v := DumpAttrs(a);
    assert OptionalStr(v.Field("st_uid")) == Ok(a.stUid);
    assert OptionalStr(v.Field("st_gid")) == Ok(a.stGid);
  }

  lemma DumpNodeFields(n: FileNode)
    requires n.Valid()
    ensures DumpNode(n).Field("type") == Some(Str(KindName(n.kind)))
    ensures DumpNode(n).Field("content") == Some(OptStrValue(n.content))
    ensures DumpNode(n).Field("children") == Some(OptMapValue(n.children))
    ensures DumpNode(n).Field("attrs") == Some(DumpAttrs(n.attrs))
    ensures DumpNode(n).Field("xattrs") == Some(OptMapValue(n.xattrs))
  {
    var ps := NodePairs(n);
    ObjectField(ps, 0);
    ObjectField(ps, 1);
    ObjectField(ps, 2);
    ObjectField(ps, 3);
    ObjectField(ps, 4);
  }

  lemma OptionalStrOf(o: Option<string>)
    ensures OptionalStr(Some(OptStrValue(o))) == Ok(o)
  {
    if o.Some? {
      assert OptStrValue(o) == Str(o.value);
    } else {
      assert OptStrValue(o) == Null;
    }
  }

  lemma OptionalStrMapOf(o: Option<Dict<string, string>>)
    requires o.Some? ==> o.value.Valid()
    ensures OptionalStrMap(Some(OptMapValue(o))) == Ok(o)
  {
    if o.Some? { StrMapRoundTrip(o.value); }
  }

  /** Validating a dumped node gives the node back. */
  lemma ParseDumpNode(n: FileNode)
    requires n.Valid()
    ensures ParseNode(DumpNode(n)) == Ok(n)
  {
    DumpNodeFields(n);
    NodeOfDumpedFields(n);
  }

  lemma NodeOfDumpedFields(n: FileNode)
    requires n.Valid()
    ensures NodeOfFields(Some(Str(KindName(n.kind))), Some(OptStrValue(n.content)), Some(OptMapValue(n.children)),
                         Some(DumpAttrs(n.attrs)), Some(OptMapValue(n.xattrs))) == Ok(n)
  {
    ParseDumpAttrs(n.attrs);
    OptionalStrMapOf(n.children);
    OptionalStrMapOf(n.xattrs);
    OptionalStrOf(n.content);
    KindNameParses(n.kind);
    assert OptionalStrMap(Some(OptMapValue(n.children))) == Ok(n.children);
    assert OptionalStrMap(Some(OptMapValue(n.xattrs))) == Ok(n.xattrs);
    assert ParseAttrs(DumpAttrs(n.attrs)) == Ok(n.attrs);
  }

  /** `GeneratedContent.model_validate(v).content`: a required string. */
  function ParseGeneratedContent(v: Value): (r: Result<string, Nodes.Error>)
    ensures r.Ok? <==> v.Map? && v.Field("content").Some? && v.Field("content").value.Str?
    ensures r.Ok? ==> v.Field("content") == Some(Str(r.value))
  {
    match v.Field("content")
    case Some(Str(s)) => Ok(s)
    case _ => Err(Nodes.ValidationError)
  }

  ghost predicate EachParsed(raw: Dict<string, Value>, parsed: Dict<string, FileNode>)
  {
    forall k :: k in parsed.entries ==>
      k in raw.entries && raw.entries[k].Valid() && ParseNode(raw.entries[k]) == Ok(parsed.entries[k])
  }

  /** `FileSystem.model_validate(v)`: a `data` mapping of valid nodes. */
  function ParseFileSystem(v: Value): (r: Result<Dict<string, FileNode>, Nodes.Error>)
    requires v.Valid()
    ensures r.Ok? ==> v.Field("data").Some? && v.Field("data").value.Map?
    ensures r.Ok? ==> r.value.keys == v.Field("data").value.fields.keys
    ensures r.Ok? ==> EachParsed(v.Field("data").value.fields, r.value)
  {
    match v.Field("data")
    case Some(Map(d)) =>
      assert v.fields.entries["data"].Valid();
      assert forall k :: k in d.entries ==> d.entries[k].Valid();
      if forall k :: k in d.entries ==> ParseNode(d.entries[k]).Ok? then
        Ok(Dict(d.keys, map k | k in d.entries :: ParseNode(d.entries[k]).value))
      else Err(Nodes.ValidationError)
    case _ => Err(Nodes.ValidationError)
  }
}
