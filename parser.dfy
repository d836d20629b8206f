/** `scouttwang.dataclass_utils.parser`: the command-line arguments a record
    schema yields, the choice of decoder for a configuration file, and the
    order in which configuration files and the command line override each
    other in `DataclassParser.parse_args`. */
module Parser {
  import opened Values
  import opened PyDict
  import opened FlatDict
  import opened DataclassOps

  // ---------------------------------------------------------------------
  // Argument specs
  // ---------------------------------------------------------------------

  datatype Action = Store | StoreTrue | StoreFalse | Extend

  /** `nargs`: not given (argparse's own default), or `ONE_OR_MORE`. */
  datatype Nargs = NargsUnset | OneOrMore

  /** A mutually exclusive group. Each is created for a single bool
      argument, so it is known by that argument's dest. */
  datatype Mutex = Mutex(owner: string, required: bool)

  /** One `add_argument` call: the flag, the dest, the action, nargs, the
      `type` if given, the `default` if given, the titles of the argument
      groups it was added to (outermost first) and its mutually exclusive
      group, if any. */
  datatype ArgSpec = ArgSpec(
    flag: string,
    dest: string,
    action: Action,
    nargs: Nargs,
    argType: Option<Ty>,
    default: Option<Value>,
    groups: seq<string>,
    mutex: Option<Mutex>)

  /** `parser_add_bool_argument(parser, dest, default)`: `--dest` stores
      true and `--not_dest` stores false, both into `dest`, in one mutually
      exclusive group that is required exactly when there is no default. */
  function AddBoolArgument(groups: seq<string>, dest: string, default: Option<Value>): (specs: seq<ArgSpec>)
    ensures |specs| == 2 && specs[0].dest == dest && specs[1].dest == dest
    ensures specs[0].flag == "--" + dest && specs[0].action == StoreTrue
    ensures specs[1].flag == "--not_" + dest && specs[1].action == StoreFalse
    ensures specs[0].mutex == specs[1].mutex && specs[0].mutex.Some?
    ensures specs[0].mutex.value.required <==> default.None?
  {
    var group := Some(Mutex(dest, default.None?));
    [ArgSpec("--" + dest, dest, StoreTrue, NargsUnset, None, None, groups, group),
     ArgSpec("--not_" + dest, dest, StoreFalse, NargsUnset, None, None, groups, group)]
  }

  /** `parser_add_tuple_argument(parser, dest, vtype, default)`. */
  function AddTupleArgument(groups: seq<string>, dest: string, vtype: Ty, default: Option<Value>): (specs: seq<ArgSpec>)
    ensures |specs| == 1 && specs[0].flag == "--" + dest && specs[0].dest == dest
    ensures specs[0].action == Extend && specs[0].nargs == OneOrMore && specs[0].argType == Some(vtype)
    ensures specs[0].default == default && specs[0].mutex.None?
  {
    [ArgSpec("--" + dest, dest, Extend, OneOrMore, Some(vtype), default, groups, None)]
  }

  /** `parser_add_argument(parser, dest, atype, default)`: a nested record
      yields its own arguments under `dest.`; `bool` the two flags;
      `tuple[T, ...]` an extending argument of element type T; any other
      type one stored argument of that type. Reading `type_args[1]` of a
      tuple type with fewer than two arguments raises IndexError. */
  function AddArgument(groups: seq<string>, dest: string, t: Ty, default: Option<Value>): Result<seq<ArgSpec>>
    decreases t, 2
  {
    if t.TRecord? then DataclassArguments(groups, t.schema, dest + ".")
    else if t.TBool? then Ok(AddBoolArgument(groups, dest, default))
    else if t.TTuple? && |t.args| < 2 then Err(IndexError)
    else if t.TTuple? && t.args[1] == TEllipsis then Ok(AddTupleArgument(groups, dest, t.args[0], default))
    else Ok([ArgSpec("--" + dest, dest, Store, NargsUnset, Some(t), default, groups, None)])
  }

  /** `parser_add_dataclass_arguments(parser, dataclass, prefix)`. */
  function DataclassArguments(groups: seq<string>, s: Schema, prefix: string): Result<seq<ArgSpec>>
    decreases s, 1
  {
    FieldsArguments(groups, s, prefix, 0)
  }

  /** The arguments of field `i`: a nested record's, in a new argument group
      titled with the field's name, or `parser_add_argument` with the field's
      default (`no_default` when it has none). */
  function FieldArguments(groups: seq<string>, s: Schema, prefix: string, i: nat): Result<seq<ArgSpec>>
    requires i < |s.fields|
    decreases s, 0, |s.fields| - i, 0
  {
    var f := s.fields[i];
    if f.ty.TRecord? then DataclassArguments(groups + [f.name], f.ty.schema, prefix + f.name + ".")
    else AddArgument(groups, prefix + f.name, f.ty, FieldDefault(f, None))
  }

  /** The field loop of `parser_add_dataclass_arguments` from field `i` on. */
  function FieldsArguments(groups: seq<string>, s: Schema, prefix: string, i: nat): Result<seq<ArgSpec>>
    requires i <= |s.fields|
    decreases s, 0, |s.fields| - i, 1
  {
    if i == |s.fields| then Ok([])
    else
      match FieldArguments(groups, s, prefix, i)
      case Err(e) => Err(e)
      case Ok(a) =>
        match FieldsArguments(groups, s, prefix, i + 1)
        case Err(e) => Err(e)
        case Ok(b) => Ok(a + b)
  }

  /** The arguments `DataclassParser.parse_args` adds for its record. */
  function Specs(s: Schema): Result<seq<ArgSpec>> {
    DataclassArguments([], s, "")
  }

  /** A bool field yields exactly its two flags. */
  lemma BoolFieldArguments(groups: seq<string>, s: Schema, prefix: string, i: nat)
    requires i < |s.fields| && s.fields[i].ty == TBool
    ensures FieldArguments(groups, s, prefix, i) ==
      Ok(AddBoolArgument(groups, prefix + s.fields[i].name, FieldDefault(s.fields[i], None)))
    ensures var specs := FieldArguments(groups, s, prefix, i).value;
      specs[0].mutex.value.required <==> s.fields[i].default.None? && s.fields[i].factory.None?
  {
  }

  /** A `tuple[T, ...]` field yields one extending argument of type T that
      carries the field's default. */
  lemma TupleFieldArguments(groups: seq<string>, s: Schema, prefix: string, i: nat)
    requires i < |s.fields| && s.fields[i].ty.TTuple?
    requires |s.fields[i].ty.args| >= 2 && s.fields[i].ty.args[1] == TEllipsis
    ensures var f := s.fields[i]; var dest := prefix + f.name;
      FieldArguments(groups, s, prefix, i) ==
        Ok([ArgSpec("--" + dest, dest, Extend, OneOrMore, Some(f.ty.args[0]), FieldDefault(f, None), groups, None)])
  {
  }

  /** Any other non-record field yields one stored argument of its type,
      with a default exactly when the field declares one. */
  lemma StoreFieldArguments(groups: seq<string>, s: Schema, prefix: string, i: nat)
    requires i < |s.fields|
    requires var t := s.fields[i].ty; t.TScalar? || t.TEllipsis? || (t.TTuple? && |t.args| >= 2 && t.args[1] != TEllipsis)
    ensures var f := s.fields[i]; var dest := prefix + f.name; var r := FieldArguments(groups, s, prefix, i);
      r.Ok? && |r.value| == 1 && r.value[0].flag == "--" + dest && r.value[0].dest == dest &&
      r.value[0].action == Store && r.value[0].nargs == NargsUnset && r.value[0].argType == Some(f.ty) &&
      r.value[0].default == FieldDefault(f, None) &&
      (r.value[0].default.Some? <==> f.default.Some? || f.factory.Some?) &&
      r.value[0].groups == groups && r.value[0].mutex.None?
  {
  }

  /** A nested record field yields the nested schema's arguments under
      `name.`, in an argument group titled `name`. */
  lemma RecordFieldArguments(groups: seq<string>, s: Schema, prefix: string, i: nat)
    requires i < |s.fields| && s.fields[i].ty.TRecord?
    ensures var f := s.fields[i];
      FieldArguments(groups, s, prefix, i) == DataclassArguments(groups + [f.name], f.ty.schema, prefix + f.name + ".")
  {
  }

  /** `type_args[1]` is the only place spec generation can raise: every
      failure of `parser_add_argument` is an IndexError. */
  lemma {:induction false} AddArgumentErrors(groups: seq<string>, dest: string, t: Ty, default: Option<Value>)
    ensures AddArgument(groups, dest, t, default).Err? ==> AddArgument(groups, dest, t, default).error == IndexError
    decreases t, 2
  {
    if t.TRecord? {
      FieldsArgumentsErrors(groups, t.schema, dest + ".", 0);
    }
  }

  /** Every failure of the field loop of `parser_add_dataclass_arguments`
      is an IndexError. */
  lemma {:induction false} FieldsArgumentsErrors(groups: seq<string>, s: Schema, prefix: string, i: nat)
    requires i <= |s.fields|
    ensures FieldsArguments(groups, s, prefix, i).Err? ==> FieldsArguments(groups, s, prefix, i).error == IndexError
    decreases s, 0, |s.fields| - i
  {
    if i < |s.fields| {
      var f := s.fields[i];
      if f.ty.TRecord? {
        FieldsArgumentsErrors(groups + [f.name], f.ty.schema, prefix + f.name + ".", 0);
        assert FieldArguments(groups, s, prefix, i) == FieldsArguments(groups + [f.name], f.ty.schema, prefix + f.name + ".", 0);
      } else {
        AddArgumentErrors(groups, prefix + f.name, f.ty, FieldDefault(f, None));
      }
      FieldsArgumentsErrors(groups, s, prefix, i + 1);
    }
  }

  /** A tuple type with fewer than two arguments makes the whole spec
      generation fail with IndexError, whatever the other fields are. */
  lemma {:induction false} ShortTupleFails(groups: seq<string>, s: Schema, prefix: string, i: nat)
    requires i <= |s.fields|
    requires exists j :: i <= j < |s.fields| && s.fields[j].ty.TTuple? && |s.fields[j].ty.args| < 2
    ensures FieldsArguments(groups, s, prefix, i) == Err(IndexError)
    decreases |s.fields| - i
  {
    var f := s.fields[i];
    if f.ty.TTuple? && |f.ty.args| < 2 {
      assert FieldArguments(groups, s, prefix, i) == Err(IndexError);
    } else {
      ShortTupleFails(groups, s, prefix, i + 1);
      if f.ty.TRecord? {
        FieldsArgumentsErrors(groups + [f.name], f.ty.schema, prefix + f.name + ".", 0);
        assert FieldArguments(groups, s, prefix, i) == FieldsArguments(groups + [f.name], f.ty.schema, prefix + f.name + ".", 0);
      } else {
        assert FieldArguments(groups, s, prefix, i).Ok?;
      }
    }
  }

  // ---------------------------------------------------------------------
  // Which dests the arguments write
  // ---------------------------------------------------------------------

  /** The dot-joined paths, under `prefix`, of the non-record fields of `s`
      at any depth: the keys `dataclass_from_flatdict` reads. */
  function LeafDests(s: Schema, prefix: string): seq<string>
    decreases s, 1
  {
    LeafDestsFrom(s, prefix, 0)
  }

  function LeafDestsFrom(s: Schema, prefix: string, i: nat): seq<string>
    requires i <= |s.fields|
    decreases s, 0, |s.fields| - i
  {
    if i == |s.fields| then []
    else
      var f := s.fields[i];
      (if f.ty.TRecord? then LeafDests(f.ty.schema, prefix + f.name + ".") else [prefix + f.name])
        + LeafDestsFrom(s, prefix, i + 1)
  }

  function Dests(specs: seq<ArgSpec>): (ds: seq<string>)
    ensures |ds| == |specs| && forall j :: 0 <= j < |specs| ==> ds[j] == specs[j].dest
  {
    if specs == [] then [] else [specs[0].dest] + Dests(specs[1..])
  }

  lemma DestsConcat(a: seq<ArgSpec>, b: seq<ArgSpec>)
    ensures Dests(a + b) == Dests(a) + Dests(b)
  {
    assert |Dests(a + b)| == |Dests(a) + Dests(b)|;
    forall j | 0 <= j < |a + b| ensures Dests(a + b)[j] == (Dests(a) + Dests(b))[j] {
      if j < |a| { assert (a + b)[j] == a[j]; } else { assert (a + b)[j] == b[j - |a|]; }
    }
  }

  /** A non-record type's arguments all write `dest` and sit in `groups`. */
  lemma AddArgumentLeaf(groups: seq<string>, dest: string, t: Ty, default: Option<Value>)
    requires !t.TRecord? && AddArgument(groups, dest, t, default).Ok?
    ensures var specs := AddArgument(groups, dest, t, default).value;
      |specs| >= 1 && forall j :: 0 <= j < |specs| ==> specs[j].dest == dest && specs[j].groups == groups
  {
  }

  /** Successful spec generation writes exactly the leaf paths: every
      argument's dest is one, and every one is some argument's dest. */
  lemma {:induction false} FieldsArgumentsDests(groups: seq<string>, s: Schema, prefix: string, i: nat)
    requires i <= |s.fields| && FieldsArguments(groups, s, prefix, i).Ok?
    ensures forall d :: d in Dests(FieldsArguments(groups, s, prefix, i).value) <==> d in LeafDestsFrom(s, prefix, i)
    decreases s, |s.fields| - i
  {
    if i < |s.fields| {
      var f := s.fields[i];
      var a := FieldArguments(groups, s, prefix, i).value;
      var b := FieldsArguments(groups, s, prefix, i + 1).value;
      assert FieldsArguments(groups, s, prefix, i).value == a + b;
      FieldsArgumentsDests(groups, s, prefix, i + 1);
      DestsConcat(a, b);
      var own := if f.ty.TRecord? then LeafDests(f.ty.schema, prefix + f.name + ".") else [prefix + f.name];
      assert LeafDestsFrom(s, prefix, i) == own + LeafDestsFrom(s, prefix, i + 1);
      FieldDests(groups, s, prefix, i);
    }
  }

  lemma {:induction false} FieldDests(groups: seq<string>, s: Schema, prefix: string, i: nat)
    requires i < |s.fields| && FieldArguments(groups, s, prefix, i).Ok?
    ensures var f := s.fields[i];
      var own := if f.ty.TRecord? then LeafDests(f.ty.schema, prefix + f.name + ".") else [prefix + f.name];
      forall d :: d in Dests(FieldArguments(groups, s, prefix, i).value) <==> d in own
    decreases s, |s.fields| - i, 0
  {
    var f := s.fields[i];
    var a := FieldArguments(groups, s, prefix, i).value;
    if f.ty.TRecord? {
      var inner := groups + [f.name];
      assert FieldArguments(groups, s, prefix, i) == FieldsArguments(inner, f.ty.schema, prefix + f.name + ".", 0);
      FieldsArgumentsDests(inner, f.ty.schema, prefix + f.name + ".", 0);
    } else {
      AddArgumentLeaf(groups, prefix + f.name, f.ty, FieldDefault(f, None));
      assert Dests(a)[0] == prefix + f.name;
    }
  }

  /** Every argument sits inside the enclosing argument groups. */
  lemma {:induction false} FieldsArgumentsGroups(groups: seq<string>, s: Schema, prefix: string, i: nat)
    requires i <= |s.fields| && FieldsArguments(groups, s, prefix, i).Ok?
    ensures var specs := FieldsArguments(groups, s, prefix, i).value;
      forall j :: 0 <= j < |specs| ==> groups <= specs[j].groups
    decreases s, |s.fields| - i
  {
    if i < |s.fields| {
      var f := s.fields[i];
      var a := FieldArguments(groups, s, prefix, i).value;
      var b := FieldsArguments(groups, s, prefix, i + 1).value;
      assert FieldsArguments(groups, s, prefix, i).value == a + b;
      FieldsArgumentsGroups(groups, s, prefix, i + 1);
      if f.ty.TRecord? {
        var inner := groups + [f.name];
        assert FieldArguments(groups, s, prefix, i) == FieldsArguments(inner, f.ty.schema, prefix + f.name + ".", 0);
        FieldsArgumentsGroups(inner, f.ty.schema, prefix + f.name + ".", 0);
        forall j | 0 <= j < |a| ensures groups <= a[j].groups {
          assert groups <= inner <= a[j].groups;
        }
      } else {
        AddArgumentLeaf(groups, prefix + f.name, f.ty, FieldDefault(f, None));
      }
      var c := a + b;
      forall j | 0 <= j < |c| ensures groups <= c[j].groups {
        if j < |a| { assert c[j] == a[j]; } else { assert c[j] == b[j - |a|]; }
      }
    }
  }

  /** The flags of `parse_args`'s parser write exactly the leaf paths of the
      record. */
  lemma SpecsDests(s: Schema)
    requires Specs(s).Ok?
    ensures forall d :: d in Dests(Specs(s).value) <==> d in LeafDests(s, "")
  {
    FieldsArgumentsDests([], s, "", 0);
  }

  // ---------------------------------------------------------------------
  // ConfigLoader.load
  // ---------------------------------------------------------------------

  /** The index of the last `c` in `s`, or -1. */
  function RFind(s: string, c: char): (r: int)
    ensures -1 <= r < |s|
    ensures r >= 0 ==> s[r] == c
    ensures forall k :: r < k < |s| ==> s[k] != c
  {
    if s == [] then -1
    else if s[|s| - 1] == c then |s| - 1
    else RFind(s[..|s| - 1], c)
  }

  /** The extension `os.path.splitext` gives on POSIX: from the last dot on,
      if that dot follows the last slash and something other than dots
      precedes it in the file name; otherwise empty. */
  function Extension(p: string): (ext: string)
    ensures ext == "" || (|ext| <= |p| && ext[0] == '.' && p[|p| - |ext|..] == ext)
    ensures forall k :: 0 < k < |ext| ==> ext[k] != '.' && ext[k] != '/'
  {
    var sep := RFind(p, '/');
    var dot := RFind(p, '.');
    if dot > sep && exists k :: sep + 1 <= k < dot && p[k] != '.' then p[dot..] else ""
  }

  /** A path ending in `ext` (a dot, then no dot or slash), whose dot
      follows a character of the file name other than a dot, has extension
      `ext`. */
  lemma ExtensionOf(stem: string, ext: string)
    requires |stem| >= 1 && stem[|stem| - 1] != '.' && stem[|stem| - 1] != '/'
    requires |ext| >= 1 && ext[0] == '.'
    requires forall k :: 0 < k < |ext| ==> ext[k] != '.' && ext[k] != '/'
    ensures Extension(stem + ext) == ext
  {
    var p := stem + ext;
    var dot := |stem|;
    assert p[dot] == '.';
    forall k | dot < k < |p| ensures p[k] != '.' && p[k] != '/' {
      assert p[k] == ext[k - dot];
    }
    assert RFind(p, '.') == dot;
    assert p[dot - 1] == stem[|stem| - 1];
    assert RFind(p, '/') < dot - 1;
    assert p[dot..] == ext;
  }

  /** Leading dots of a file name are not an extension: `.json` alone has
      none. */
  lemma HiddenFileHasNoExtension()
    ensures Extension(".json") == ""
    ensures Extension("conf/.yml") == ""
  {
    var h := ".json";
    assert h[0] == '.' && h[1] != '.' && h[2] != '.' && h[3] != '.' && h[4] != '.';
    assert h[0] != '/' && h[1] != '/' && h[2] != '/' && h[3] != '/' && h[4] != '/';
    assert RFind(h, '.') == 0 && RFind(h, '/') == -1;
    var c := "conf/.yml";
    assert c[4] == '/' && c[5] == '.' && c[6] != '/' && c[7] != '/' && c[8] != '/';
    assert c[6] != '.' && c[7] != '.' && c[8] != '.';
    assert RFind(c, '/') == 4 && RFind(c, '.') == 5;
  }

  datatype Decoder = Json | Yaml | Toml

  /** The decoder `ConfigLoader.load` picks by extension; any other raises
      ValueError. */
  function ChooseDecoder(path: string): (r: Result<Decoder>)
    ensures r == Ok(Json) <==> Extension(path) == ".json"
    ensures r == Ok(Yaml) <==> Extension(path) == ".yaml" || Extension(path) == ".yml"
    ensures r == Ok(Toml) <==> Extension(path) == ".toml"
    ensures r.Err? <==> Extension(path) !in [".json", ".yaml", ".yml", ".toml"]
    ensures r.Err? ==> r.error == ValueError
  {
    var ext := Extension(path);
    if ext == ".json" then Ok(Json)
    else if ext == ".yaml" || ext == ".yml" then Ok(Yaml)
    else if ext == ".toml" then Ok(Toml)
    else Err(ValueError)
  }

  /** The decoder is chosen by the final extension of the file name. */
  lemma ChooseDecoderByName(stem: string, ext: string)
    requires |stem| >= 1 && stem[|stem| - 1] != '.' && stem[|stem| - 1] != '/'
    requires |ext| >= 1 && ext[0] == '.'
    requires forall k :: 0 < k < |ext| ==> ext[k] != '.' && ext[k] != '/'
    ensures ChooseDecoder(stem + ext) ==
      if ext == ".json" then Ok(Json)
      else if ext == ".yaml" || ext == ".yml" then Ok(Yaml)
      else if ext == ".toml" then Ok(Toml)
      else Err(ValueError)
  {
    ExtensionOf(stem, ext);
  }

  /** A configuration file: its path, and the document the decoder for its
      format reads from it. */
  datatype ConfigFile = ConfigFile(path: string, document: Value)

  /** `ConfigLoader().load(path)`. */
  function Load(file: ConfigFile): (r: Result<Value>)
    ensures r.Ok? <==> ChooseDecoder(file.path).Ok?
    ensures r.Ok? ==> r.value == file.document
    ensures r.Err? ==> r.error == ValueError
  {
    match ChooseDecoder(file.path)
    case Err(e) => Err(e)
    case Ok(_) => Ok(file.document)
  }

  // ---------------------------------------------------------------------
  // DataclassParser.parse_args
  // ---------------------------------------------------------------------

  /** `flat_conf_kwargs.update(flatten_dict(loader.load(conf)))` for each
      file in order; a document that is not a mapping has no `items` and
      raises AttributeError. */
  function MergeConfigs(acc: Entries, confs: seq<ConfigFile>): Result<Entries>
    decreases |confs|
  {
    if confs == [] then Ok(acc)
    else match Load(confs[0])
      case Err(e) => Err(e)
      case Ok(doc) =>
        if !doc.Dict? then Err(AttributeError)
        else MergeConfigs(Update(acc, Flatten(doc.entries)), confs[1..])
  }

  /** What `parse_args` returns, given the configuration files named by
      `--conf` (absent when the option is not given: iterating `None` raises
      TypeError) and the namespace the command-line parser produced. */
  function ParseArgsResult(s: Schema, conf: Option<seq<ConfigFile>>, ns: Entries): Result<Record> {
    if conf.None? then Err(TypeError)
    else match MergeConfigs([], conf.value)
      case Err(e) => Err(e)
      case Ok(merged) =>
        match Specs(s)
        case Err(e) => Err(e)
        case Ok(_) => FromFlat(Update(merged, ns), s)
  }

  class DataclassParser {
    const dataclass: Schema

    constructor (dataclass: Schema)
      ensures this.dataclass == dataclass
    {
      this.dataclass := dataclass;
    }

    method ParseArgs(conf: Option<seq<ConfigFile>>, ns: Entries) returns (r: Result<Record>)
      ensures r == ParseArgsResult(dataclass, conf, ns)
    {
      if conf.None? {
        return Err(TypeError);
      }
      var confs := conf.value;
      var flatConfKwargs: Entries := [];
      var i := 0;
      while i < |confs|
        invariant 0 <= i <= |confs|
        invariant MergeConfigs(flatConfKwargs, confs[i..]) == MergeConfigs([], confs)
      {
        assert confs[i..][0] == confs[i] && confs[i..][1..] == confs[i + 1..];
        var kwargs := Load(confs[i]);
        if kwargs.Err? {
          return Err(kwargs.error);
        }
        if !kwargs.value.Dict? {
          return Err(AttributeError);
        }
        var flat := FlattenDict(kwargs.value.entries);
        flatConfKwargs := Update(flatConfKwargs, flat);
        i := i + 1;
      }
      var specs := Specs(dataclass);
      if specs.Err? {
        return Err(specs.error);
      }
      flatConfKwargs := Update(flatConfKwargs, ns);
      r := DataclassFromFlatdict(flatConfKwargs, dataclass);
    }
  }

  /** The value the last configuration file (in order) gives key `k`, after
      flattening. */
  function LastConfigValue(confs: seq<ConfigFile>, k: string): Option<Value>
    decreases |confs|
  {
    if confs == [] then None
    else
      var later := LastConfigValue(confs[1..], k);
      if later.Some? then later
      else if confs[0].document.Dict? then Get(Flatten(confs[0].document.entries), k)
      else None
  }

  /** Later configuration files override earlier ones key by key. */
  lemma {:induction false} MergeConfigsGet(acc: Entries, confs: seq<ConfigFile>, k: string)
    requires MergeConfigs(acc, confs).Ok?
    ensures Get(MergeConfigs(acc, confs).value, k) ==
      match LastConfigValue(confs, k) case Some(v) => Some(v) case None => Get(acc, k)
    decreases |confs|
  {
    if confs != [] {
      var flat := Flatten(confs[0].document.entries);
      FlattenIsFlat([], confs[0].document.entries, 0, "");
      UpdateGet(acc, flat, k);
      GetLastDistinct(flat, k);
      GetKeys(flat, k);
      MergeConfigsGet(Update(acc, flat), confs[1..], k);
    }
  }

  /** The priority `parse_args` gives a key of the flat mapping it builds
      the record from: the command line's value if it has the key, else the
      last configuration file's that does. */
  lemma ParsePriority(confs: seq<ConfigFile>, ns: Entries, k: string)
    requires MergeConfigs([], confs).Ok? && Distinct(Keys(ns))
    ensures Get(Update(MergeConfigs([], confs).value, ns), k) ==
      if k in Keys(ns) then Get(ns, k) else LastConfigValue(confs, k)
  {
    var merged := MergeConfigs([], confs).value;
    UpdateGet(merged, ns, k);
    GetLastDistinct(ns, k);
    MergeConfigsGet([], confs, k);
  }

  /** End to end: a top-level scalar field of the parsed record holds the
      command line's value, else the last configuration file's, else the
      field's default. */
  lemma ParseArgsScalar(s: Schema, confs: seq<ConfigFile>, ns: Entries, j: nat)
    requires UniqueNames(s.fields) && j < |s.fields| && !s.fields[j].ty.TRecord?
    requires Distinct(Keys(ns))
    requires ParseArgsResult(s, Some(confs), ns).Ok?
    ensures var f := s.fields[j]; var rec := ParseArgsResult(s, Some(confs), ns).value;
      f.name in rec.fields &&
      (Get(ns, f.name).Some? ==> rec.fields[f.name] == Val(Get(ns, f.name).value)) &&
      (Get(ns, f.name).None? && LastConfigValue(confs, f.name).Some? ==>
         rec.fields[f.name] == Val(LastConfigValue(confs, f.name).value)) &&
      (Get(ns, f.name).None? && LastConfigValue(confs, f.name).None? ==>
         FieldDefault(f, None).Some? && rec.fields[f.name] == Val(FieldDefault(f, None).value))
  {
    var merged := MergeConfigs([], confs).value;
    var flat := Update(merged, ns);
    ParsePriority(confs, ns, s.fields[j].name);
    GetKeys(ns, s.fields[j].name);
    FromFlatScalar(flat, s, j);
  }

  // ---------------------------------------------------------------------
  // The namespace argparse seeds before it reads the command line
  // ---------------------------------------------------------------------

  /** The value argparse seeds an argument's dest with: the argument's own
      `default`, else the parser's `set_defaults` value for the dest, else
      the action's built-in default (False for store_true, True for
      store_false, None otherwise). */
  function ActionDefault(spec: ArgSpec, setDefaults: Entries): Value {
    if spec.default.Some? then spec.default.value
    else match Get(setDefaults, spec.dest)
      case Some(v) => v
      case None =>
        if spec.action == StoreTrue then Bool(false)
        else if spec.action == StoreFalse then Bool(true)
        else Null
  }

  /** The namespace `parser.parse_args` starts from: every dest, in the
      order its arguments were added and seeded by the first of them, then
      every `set_defaults` key that no argument writes. */
  function Seeded(specs: seq<ArgSpec>, setDefaults: Entries): Entries {
    SeedRest(SeedDests([], specs, setDefaults), setDefaults)
  }

  function SeedDests(acc: Entries, specs: seq<ArgSpec>, setDefaults: Entries): Entries
    decreases |specs|
  {
    if specs == [] then acc
    else if Get(acc, specs[0].dest).Some? then SeedDests(acc, specs[1..], setDefaults)
    else SeedDests(Put(acc, specs[0].dest, ActionDefault(specs[0], setDefaults)), specs[1..], setDefaults)
  }

  function SeedRest(acc: Entries, setDefaults: Entries): Entries
    decreases |setDefaults|
  {
    if setDefaults == [] then acc
    else if Get(acc, setDefaults[0].0).Some? then SeedRest(acc, setDefaults[1..])
    else SeedRest(Put(acc, setDefaults[0].0, setDefaults[0].1), setDefaults[1..])
  }

  /** Seeding keeps a dest that already has a value, and leaves a dest
      that no argument writes without one. */
  lemma {:induction false} SeedDestsKeep(acc: Entries, specs: seq<ArgSpec>, setDefaults: Entries, d: string)
    ensures Get(acc, d).Some? ==> Get(SeedDests(acc, specs, setDefaults), d) == Get(acc, d)
    ensures Get(acc, d).None? && (forall k :: 0 <= k < |specs| ==> specs[k].dest != d) ==>
      Get(SeedDests(acc, specs, setDefaults), d).None?
    decreases |specs|
  {
    if specs != [] {
      var sp := specs[0];
      if Get(acc, sp.dest).None? {
        PutGet(acc, sp.dest, ActionDefault(sp, setDefaults), d);
        SeedDestsKeep(Put(acc, sp.dest, ActionDefault(sp, setDefaults)), specs[1..], setDefaults, d);
      } else {
        SeedDestsKeep(acc, specs[1..], setDefaults, d);
      }
      if Get(acc, d).None? && (forall k :: 0 <= k < |specs| ==> specs[k].dest != d) {
        assert sp.dest != d;
        assert forall k :: 0 <= k < |specs[1..]| ==> specs[1..][k] == specs[k + 1];
      }
    }
  }

  /** A dest without a value gets the default of the first argument that
      writes it. */
  lemma {:induction false} SeedDestsFirst(acc: Entries, specs: seq<ArgSpec>, setDefaults: Entries, i: nat)
    requires i < |specs| && Get(acc, specs[i].dest).None?
    requires forall k :: 0 <= k < i ==> specs[k].dest != specs[i].dest
    ensures Get(SeedDests(acc, specs, setDefaults), specs[i].dest) == Some(ActionDefault(specs[i], setDefaults))
    decreases |specs|
  {
    var sp := specs[0];
    var d := specs[i].dest;
    if i == 0 {
      PutGet(acc, d, ActionDefault(sp, setDefaults), d);
      SeedDestsKeep(Put(acc, d, ActionDefault(sp, setDefaults)), specs[1..], setDefaults, d);
    } else {
      assert sp.dest != d;
      assert specs[1..][i - 1] == specs[i];
      assert forall k :: 0 <= k < i - 1 ==> specs[1..][k] == specs[k + 1];
      if Get(acc, sp.dest).None? {
        PutGet(acc, sp.dest, ActionDefault(sp, setDefaults), d);
        SeedDestsFirst(Put(acc, sp.dest, ActionDefault(sp, setDefaults)), specs[1..], setDefaults, i - 1);
      } else {
        SeedDestsFirst(acc, specs[1..], setDefaults, i - 1);
      }
    }
  }

  /** After the dests, a `set_defaults` key without a value gets the
      `set_defaults` value. */
  lemma {:induction false} SeedRestGet(acc: Entries, setDefaults: Entries, k: string)
    ensures Get(SeedRest(acc, setDefaults), k) == if Get(acc, k).Some? then Get(acc, k) else Get(setDefaults, k)
    decreases |setDefaults|
  {
    if setDefaults != [] {
      var (k0, v0) := setDefaults[0];
      if Get(acc, k0).Some? {
        SeedRestGet(acc, setDefaults[1..], k);
      } else {
        PutGet(acc, k0, v0, k);
        SeedRestGet(Put(acc, k0, v0), setDefaults[1..], k);
      }
    }
  }

  /** Every argument's dest and every `set_defaults` key is in the seeded
      namespace, and nothing else: command-line parsing only overwrites
      these, so the namespace `parse_args` merges always holds every dest. */
  lemma SeededKeys(specs: seq<ArgSpec>, setDefaults: Entries, d: string)
    ensures d in Keys(Seeded(specs, setDefaults)) <==> d in Dests(specs) || d in Keys(setDefaults)
  {
    var seeded := SeedDests([], specs, setDefaults);
    SeedRestGet(seeded, setDefaults, d);
    GetKeys(Seeded(specs, setDefaults), d);
    GetKeys(setDefaults, d);
    if d in Dests(specs) {
      var i :| 0 <= i < |specs| && Dests(specs)[i] == d;
      var m := FirstDest(specs, d, i);
      SeedDestsFirst([], specs, setDefaults, m);
    } else {
      assert forall k :: 0 <= k < |specs| ==> specs[k].dest != d by {
        forall k | 0 <= k < |specs| ensures specs[k].dest != d {
          assert Dests(specs)[k] == specs[k].dest;
        }
      }
      SeedDestsKeep([], specs, setDefaults, d);
    }
  }

  /** The seeded value of a dest is the default of the first argument that
      writes it. */
  lemma SeededGet(specs: seq<ArgSpec>, setDefaults: Entries, i: nat)
    requires i < |specs| && forall k :: 0 <= k < i ==> specs[k].dest != specs[i].dest
    ensures Get(Seeded(specs, setDefaults), specs[i].dest) == Some(ActionDefault(specs[i], setDefaults))
  {
    SeedDestsFirst([], specs, setDefaults, i);
    SeedRestGet(SeedDests([], specs, setDefaults), setDefaults, specs[i].dest);
  }

  /** A dest that some argument writes has a first such argument. */
  lemma {:induction false} FirstDest(specs: seq<ArgSpec>, d: string, i: nat) returns (m: nat)
    requires i < |specs| && specs[i].dest == d
    ensures m <= i && specs[m].dest == d && forall k :: 0 <= k < m ==> specs[k].dest != d
    decreases i
  {
    if exists k :: 0 <= k < i && specs[k].dest == d {
      var k :| 0 <= k < i && specs[k].dest == d;
      m := FirstDest(specs, d, k);
    } else {
      m := i;
    }
  }

  /** The bool flags carry no default of their own, so the field's declared
      default never seeds the dest: the `set_defaults` value does if there
      is one, else store_true's False. */
  lemma BoolSeedIgnoresDefault(groups: seq<string>, dest: string, default: Option<Value>, setDefaults: Entries)
    ensures var specs := AddBoolArgument(groups, dest, default);
      ActionDefault(specs[0], setDefaults) ==
        if Get(setDefaults, dest).Some? then Get(setDefaults, dest).value else Bool(false)
  {
  }

  /** A stored argument carries the field's default when it has one, so
      that default seeds the dest and outranks a configuration value; a
      field with no default is seeded with the configuration value, else
      None. */
  lemma StoreSeedPrefersDefault(groups: seq<string>, s: Schema, prefix: string, i: nat, setDefaults: Entries)
    requires i < |s.fields|
    requires var t := s.fields[i].ty; t.TScalar? || t.TEllipsis? || (t.TTuple? && |t.args| >= 2 && t.args[1] != TEllipsis)
    ensures FieldArguments(groups, s, prefix, i).Ok? && |FieldArguments(groups, s, prefix, i).value| == 1
    ensures var f := s.fields[i]; var spec := FieldArguments(groups, s, prefix, i).value[0];
      ActionDefault(spec, setDefaults) ==
        if FieldDefault(f, None).Some? then FieldDefault(f, None).value
        else if Get(setDefaults, prefix + f.name).Some? then Get(setDefaults, prefix + f.name).value
        else Null
  {
    StoreFieldArguments(groups, s, prefix, i);
  }

  /** The name of a top-level non-record field is one of the leaf paths. */
  lemma {:induction false} LeafDestsHas(s: Schema, prefix: string, i: nat, j: nat)
    requires i <= j < |s.fields| && !s.fields[j].ty.TRecord?
    ensures prefix + s.fields[j].name in LeafDestsFrom(s, prefix, i)
    decreases j - i
  {
    if i < j {
      LeafDestsHas(s, prefix, i + 1, j);
    }
  }

  /** In the program the namespace holds every dest (`SeededKeys`); then a
      top-level scalar field of the parsed record holds the namespace's
      value, and configuration files and declared defaults reach it only
      through the namespace. */
  lemma ParseArgsFromNamespace(s: Schema, confs: seq<ConfigFile>, ns: Entries, j: nat)
    requires UniqueNames(s.fields) && j < |s.fields| && !s.fields[j].ty.TRecord?
    requires Distinct(Keys(ns))
    requires ParseArgsResult(s, Some(confs), ns).Ok?
    requires forall d :: d in Dests(Specs(s).value) ==> d in Keys(ns)
    ensures var f := s.fields[j]; var rec := ParseArgsResult(s, Some(confs), ns).value;
      Get(ns, f.name).Some? && f.name in rec.fields && rec.fields[f.name] == Val(Get(ns, f.name).value)
  {
    var f := s.fields[j];
    SpecsDests(s);
    LeafDestsHas(s, "", 0, j);
    assert "" + f.name == f.name;
    GetKeys(ns, f.name);
    ParseArgsScalar(s, confs, ns, j);
  }

  /** A bool field declared `flag: bool = True`, given neither on the
      command line nor in a configuration file, is built as False. */
  lemma BoolDefaultLost()
    ensures var s := Schema([Field("flag", TBool, Some(Bool(true)), None)]);
      Specs(s).Ok? &&
      Seeded(Specs(s).value, []) == [("flag", Bool(false))] &&
      ParseArgsResult(s, Some([]), Seeded(Specs(s).value, [])) == Ok(Record(map["flag" := Val(Bool(false))]))
  {
    var s := Schema([Field("flag", TBool, Some(Bool(true)), None)]);
    var specs := AddBoolArgument([], "flag", Some(Bool(true)));
    assert "" + "flag" == "flag";
    assert FieldArguments([], s, "", 0) == AddArgument([], "flag", TBool, Some(Bool(true))) == Ok(specs);
    assert FieldsArguments([], s, "", 1) == Ok([]);
    assert specs + [] == specs;
    assert Specs(s) == Ok(specs);
    var ns := [("flag", Bool(false))];
    assert SeedDests([], specs, []) == ns;
    assert Seeded(specs, []) == ns;
    var kwargs := [("flag", Val(Bool(true)))];
    assert Defaults(s.fields) == kwargs;
    assert Get(ns, "flag") == Some(Bool(false));
    assert Put(kwargs, "flag", Val(Bool(false))) == [("flag", Val(Bool(false)))];
    assert FlatStep(ns, s, 0, kwargs) == Ok([("flag", Val(Bool(false)))]);
    assert FlatArgs(ns, s, 0, kwargs) == Ok([("flag", Val(Bool(false)))]);
  }

  /** A required scalar field given nowhere is built with None: its stored
      argument has no default, so argparse seeds its dest with None. */
  lemma RequiredScalarBuiltWithNone()
    ensures var s := Schema([Field("x", TScalar("int"), None, None)]);
      Specs(s).Ok? &&
      Seeded(Specs(s).value, []) == [("x", Null)] &&
      ParseArgsResult(s, Some([]), Seeded(Specs(s).value, [])) == Ok(Record(map["x" := Val(Null)]))
  {
    var s := Schema([Field("x", TScalar("int"), None, None)]);
    var specs := [ArgSpec("--x", "x", Store, NargsUnset, Some(TScalar("int")), None, [], None)];
    assert "" + "x" == "x" && "--" + "x" == "--x";
    assert FieldArguments([], s, "", 0) == AddArgument([], "x", TScalar("int"), None) == Ok(specs);
    assert FieldsArguments([], s, "", 1) == Ok([]);
    assert specs + [] == specs;
    assert Specs(s) == Ok(specs);
    var ns := [("x", Null)];
    assert SeedDests([], specs, []) == ns;
    assert Seeded(specs, []) == ns;
    assert Defaults(s.fields) == [];
    assert FlatArgs(ns, s, 0, []) == Ok([("x", Val(Null))]);
  }
}
