/** `scouttwang.dataclass_utils.ops`: the defaults of a record schema, and
    building a record from a flat or a nested mapping. Python's dataclass
    reflection is replaced by an explicit schema. */
module DataclassOps {
  import opened Values
  import opened PyDict

  /** A field's declared type, as far as the library looks at it. */
  datatype Ty =
    | TBool                      // `bool`
    | TEllipsis                  // the `...` of `tuple[T, ...]`, as `typing.get_args` reports it
    | TTuple(args: seq<Ty>)      // `tuple[...]` with its type arguments
    | TScalar(name: string)      // any other type, as an opaque tag (`int`, `str`, `float`, `List[int]`, ...)
    | TRecord(schema: Schema)    // a nested dataclass

  /** A dataclass field: its name, its type, and its literal default and
      default factory when declared (the factory's result stands for the
      factory). */
  datatype Field = Field(name: string, ty: Ty, default: Option<Value>, factory: Option<Value>)

  /** A dataclass: its fields in declaration order. */
  datatype Schema = Schema(fields: seq<Field>)

  /** A constructed record: every field's name bound to its value, a nested
      record for a field of record type. */
  datatype Record = Record(fields: map<string, Member>)
  datatype Member = Val(value: Value) | Rec(record: Record)

  /** Keyword arguments for a record constructor, in insertion order. */
  type Kwargs = seq<(string, Member)>

  function Names(fields: seq<Field>): (ns: seq<string>)
    ensures |ns| == |fields|
    ensures forall j :: 0 <= j < |fields| ==> ns[j] == fields[j].name
  {
    if fields == [] then [] else [fields[0].name] + Names(fields[1..])
  }

  /** Field names are unique, as Python guarantees for a dataclass. */
  ghost predicate UniqueNames(fields: seq<Field>) {
    forall i, j :: 0 <= i < j < |fields| ==> fields[i].name != fields[j].name
  }

  // ---------------------------------------------------------------------
  // field_default, dataclass_defaults
  // ---------------------------------------------------------------------

  /** `field_default(field, default=fallback)`: the literal default, else the
      factory's result, else the fallback. `None` stands for the `no_default`
      marker, `Some(Null)` for Python's `None`. */
  function FieldDefault(f: Field, fallback: Option<Value>): (r: Option<Value>)
    ensures f.default.Some? ==> r == f.default
    ensures f.default.None? && f.factory.Some? ==> r == f.factory
    ensures f.default.None? && f.factory.None? ==> r == fallback
  {
    if f.default.Some? then f.default
    else if f.factory.Some? then f.factory
    else fallback
  }

  /** Whether `dataclass_defaults` records field `f`: not a nested record,
      and its default (with fallback `None`) is not `None`. */
  predicate HasCollectedDefault(f: Field) {
    !f.ty.TRecord? && FieldDefault(f, Some(Null)) != Some(Null)
  }

  /** The loop of `dataclass_defaults` from field `i` on. */
  function DefaultsFrom(acc: Kwargs, fields: seq<Field>, i: nat): Kwargs
    requires i <= |fields|
    decreases |fields| - i
  {
    if i == |fields| then acc
    else if HasCollectedDefault(fields[i]) then
      DefaultsFrom(Put(acc, fields[i].name, Val(FieldDefault(fields[i], Some(Null)).value)), fields, i + 1)
    else DefaultsFrom(acc, fields, i + 1)
  }

  /** `dataclass_defaults(dataclass)`. */
  function Defaults(fields: seq<Field>): Kwargs {
    DefaultsFrom([], fields, 0)
  }

  /** `dataclass_defaults(dataclass)` as a loop; it computes `Defaults`. */
  method DataclassDefaults(s: Schema) returns (defaults: Kwargs)
    ensures defaults == Defaults(s.fields)
  {
    defaults := [];
    var i := 0;
    while i < |s.fields|
      invariant 0 <= i <= |s.fields|
      invariant DefaultsFrom(defaults, s.fields, i) == Defaults(s.fields)
    {
      DefaultsFromStep(defaults, s.fields, i);
      var field := s.fields[i];
      if !field.ty.TRecord? {
        var default := FieldDefault(field, Some(Null));
        if default != Some(Null) {
          defaults := Put(defaults, field.name, Val(default.value));
        }
      }
      i := i + 1;
    }
  }

  lemma DefaultsFromStep(acc: Kwargs, fields: seq<Field>, i: nat)
    requires i < |fields|
    ensures DefaultsFrom(acc, fields, i) ==
      if HasCollectedDefault(fields[i]) then
        DefaultsFrom(Put(acc, fields[i].name, Val(FieldDefault(fields[i], Some(Null)).value)), fields, i + 1)
      else DefaultsFrom(acc, fields, i + 1)
  {
  }

  lemma {:induction false} DefaultsFromGet(acc: Kwargs, fields: seq<Field>, i: nat, j: nat)
    requires i <= |fields| && j < |fields| && UniqueNames(fields)
    ensures Get(DefaultsFrom(acc, fields, i), fields[j].name) ==
      if j < i || !HasCollectedDefault(fields[j]) then Get(acc, fields[j].name)
      else Some(Val(FieldDefault(fields[j], Some(Null)).value))
    decreases |fields| - i
  {
    if i < |fields| {
      var f := fields[i];
      if HasCollectedDefault(f) {
        var m := Val(FieldDefault(f, Some(Null)).value);
        var acc1 := Put(acc, f.name, m);
        DefaultsFromStep(acc, fields, i);
        DefaultsFromGet(acc1, fields, i + 1, j);
        PutGet(acc, f.name, m, fields[j].name);
        if j < i {
          assert fields[j].name != f.name;
        } else if j > i {
          assert f.name != fields[j].name;
        }
      } else {
        DefaultsFromStep(acc, fields, i);
        DefaultsFromGet(acc, fields, i + 1, j);
      }
    }
  }

  lemma {:induction false} DefaultsFromKeys(acc: Kwargs, fields: seq<Field>, i: nat)
    requires i <= |fields|
    ensures forall k :: k in Keys(DefaultsFrom(acc, fields, i)) ==> k in Keys(acc) || k in Names(fields)
    decreases |fields| - i
  {
    if i < |fields| {
      if HasCollectedDefault(fields[i]) {
        PutKeys(acc, fields[i].name, Val(FieldDefault(fields[i], Some(Null)).value));
        DefaultsFromKeys(Put(acc, fields[i].name, Val(FieldDefault(fields[i], Some(Null)).value)), fields, i + 1);
      } else {
        DefaultsFromKeys(acc, fields, i + 1);
      }
    }
  }

  /** `dataclass_defaults` holds a field's resolved default exactly when the
      field is not a nested record and that default is not `None`; it has no
      other keys. */
  lemma DefaultsGet(fields: seq<Field>, j: nat)
    requires j < |fields| && UniqueNames(fields)
    ensures Get(Defaults(fields), fields[j].name) ==
      if HasCollectedDefault(fields[j]) then Some(Val(FieldDefault(fields[j], Some(Null)).value)) else None
    ensures fields[j].ty.TRecord? ==> fields[j].name !in Keys(Defaults(fields))
    ensures forall k :: k in Keys(Defaults(fields)) ==> k in Names(fields)
  {
    DefaultsFromGet([], fields, 0, j);
    DefaultsFromKeys([], fields, 0);
    GetKeys(Defaults(fields), fields[j].name);
  }

  // ---------------------------------------------------------------------
  // The record constructor `dataclass(**kwargs)`
  // ---------------------------------------------------------------------

  /** What the constructor binds to field `f`: the keyword argument, else the
      literal default, else the factory's result; `None` when `f` is required
      and not given. */
  function Bound(f: Field, kwargs: Kwargs): Option<Member> {
    match Get(kwargs, f.name)
    case Some(m) => Some(m)
    case None =>
      match FieldDefault(f, None)
      case Some(v) => Some(Val(v))
      case None => None
  }

  /** The names of the required fields `kwargs` does not supply, in order. */
  function Unbound(fields: seq<Field>, kwargs: Kwargs): (names: seq<string>)
    ensures |names| == 0 <==> forall j :: 0 <= j < |fields| ==> Bound(fields[j], kwargs).Some?
    ensures forall n :: n in names ==> n in Names(fields)
    ensures forall n :: n in names ==>
      exists j :: 0 <= j < |fields| && fields[j].name == n && Bound(fields[j], kwargs).None?
  {
    if fields == [] then []
    else
      var rest := Unbound(fields[1..], kwargs);
      assert forall j :: 1 <= j < |fields| ==> fields[j] == fields[1..][j - 1];
      if Bound(fields[0], kwargs).None? then [fields[0].name] + rest else rest
  }

  function Bind(fields: seq<Field>, kwargs: Kwargs): map<string, Member> {
    if fields == [] then map[]
    else
      var rest := Bind(fields[1..], kwargs);
      match Bound(fields[0], kwargs)
      case None => rest
      case Some(m) => rest[fields[0].name := m]
  }

  /** The first keyword of `kwargs` that names no field, if there is one. */
  function Unexpected(fields: seq<Field>, kwargs: Kwargs): (r: Option<string>)
    ensures r.None? <==> forall k :: k in Keys(kwargs) ==> k in Names(fields)
    ensures r.Some? ==> r.value in Keys(kwargs) && r.value !in Names(fields)
  {
    if kwargs == [] then None
    else
      KeysCons(kwargs);
      assert kwargs[0].0 in Keys(kwargs);
      if kwargs[0].0 !in Names(fields) then Some(kwargs[0].0) else Unexpected(fields, kwargs[1..])
  }

  /** `dataclass(**kwargs)`: a TypeError naming a keyword that is no field
      (Python binds the keywords before it looks for missing ones), else a
      TypeError naming the missing required fields, else the record. */
  function Construct(fields: seq<Field>, kwargs: Kwargs): (r: Result<Record>)
    ensures r.Ok? <==>
      (forall k :: k in Keys(kwargs) ==> k in Names(fields)) &&
      (forall j :: 0 <= j < |fields| ==> Bound(fields[j], kwargs).Some?)
    ensures (r.Err? && r.error.UnexpectedArgument?) <==> exists k :: k in Keys(kwargs) && k !in Names(fields)
    ensures r.Err? && r.error.UnexpectedArgument? ==>
      r.error.keyword in Keys(kwargs) && r.error.keyword !in Names(fields)
    ensures r.Err? && !r.error.UnexpectedArgument? ==>
      r.error.MissingArguments? && |r.error.names| >= 1 &&
      forall n :: n in r.error.names ==> n in Names(fields)
    ensures r.Err? && r.error.MissingArguments? ==>
      forall n :: n in r.error.names ==>
        exists j :: 0 <= j < |fields| && fields[j].name == n && Bound(fields[j], kwargs).None?
  {
    match Unexpected(fields, kwargs)
    case Some(k) => Err(UnexpectedArgument(k))
    case None =>
      var missing := Unbound(fields, kwargs);
      if missing != [] then Err(MissingArguments(missing)) else Ok(Record(Bind(fields, kwargs)))
  }

  /** A keyword that names no field makes construction fail, naming it when
      it is the only such keyword. */
  lemma ConstructUnexpected(fields: seq<Field>, kwargs: Kwargs, k: string)
    requires k in Keys(kwargs) && k !in Names(fields)
    requires forall k' :: k' in Keys(kwargs) && k' != k ==> k' in Names(fields)
    ensures Construct(fields, kwargs) == Err(UnexpectedArgument(k))
  {
  }

  lemma {:induction false} BindGet(fields: seq<Field>, kwargs: Kwargs, j: nat)
    requires UniqueNames(fields) && j < |fields| && Bound(fields[j], kwargs).Some?
    ensures fields[j].name in Bind(fields, kwargs)
    ensures Bind(fields, kwargs)[fields[j].name] == Bound(fields[j], kwargs).value
  {
    if j > 0 {
      assert fields[1..][j - 1] == fields[j];
      BindGet(fields[1..], kwargs, j - 1);
    }
  }

  lemma {:induction false} BindKeys(fields: seq<Field>, kwargs: Kwargs)
    ensures forall n :: n in Bind(fields, kwargs) ==> n in Names(fields)
  {
    if fields != [] {
      BindKeys(fields[1..], kwargs);
    }
  }

  /** A constructed record binds exactly the schema's fields, each to what
      the constructor binds it to. */
  lemma ConstructGet(fields: seq<Field>, kwargs: Kwargs, j: nat)
    requires UniqueNames(fields) && j < |fields| && Construct(fields, kwargs).Ok?
    ensures fields[j].name in Construct(fields, kwargs).value.fields
    ensures Construct(fields, kwargs).value.fields[fields[j].name] == Bound(fields[j], kwargs).value
    ensures forall n :: n in Construct(fields, kwargs).value.fields ==> n in Names(fields)
  {
    BindGet(fields, kwargs, j);
    BindKeys(fields, kwargs);
  }

  // ---------------------------------------------------------------------
  // dataclass_from_flatdict
  // ---------------------------------------------------------------------

  /** The flat entries a nested field named `name` is built from: those whose
      key starts with `name + "."`, with that prefix dropped. */
  function SubDict(flat: Entries, name: string): Entries {
    SubDictFrom([], flat, 0, name)
  }

  function SubDictFrom(acc: Entries, flat: Entries, i: nat, name: string): Entries
    requires i <= |flat|
    decreases |flat| - i
  {
    if i == |flat| then acc
    else if name + "." <= flat[i].0 then
      SubDictFrom(Put(acc, flat[i].0[|name| + 1..], flat[i].1), flat, i + 1, name)
    else SubDictFrom(acc, flat, i + 1, name)
  }

  /** The sub-mapping as written: the key test is `k.startswith(name)`, while
      `len(name) + 1` characters are dropped (Python's slice past the end
      gives the empty string). */
  function SubDictAsWritten(flat: Entries, name: string): Entries {
    SubDictAsWrittenFrom([], flat, 0, name)
  }

  function SubDictAsWrittenFrom(acc: Entries, flat: Entries, i: nat, name: string): Entries
    requires i <= |flat|
    decreases |flat| - i
  {
    if i == |flat| then acc
    else if name <= flat[i].0 then
      var k := flat[i].0;
      var stripped := if |k| >= |name| + 1 then k[|name| + 1..] else "";
      SubDictAsWrittenFrom(Put(acc, stripped, flat[i].1), flat, i + 1, name)
    else SubDictAsWrittenFrom(acc, flat, i + 1, name)
  }

  /** `dataclass_from_flatdict(flat, dataclass)`: seed with the defaults,
      then for each field build a nested record from its sub-mapping or take
      the flat value, then construct. */
  function FromFlat(flat: Entries, s: Schema): Result<Record>
    decreases s, 1
  {
    match FlatArgs(flat, s, 0, Defaults(s.fields))
    case Err(e) => Err(e)
    case Ok(kwargs) => Construct(s.fields, kwargs)
  }

  /** The field loop of `dataclass_from_flatdict` from field `i` on. */
  function FlatArgs(flat: Entries, s: Schema, i: nat, kwargs: Kwargs): Result<Kwargs>
    requires i <= |s.fields|
    decreases s, 0, |s.fields| - i, 1
  {
    if i == |s.fields| then Ok(kwargs)
    else
      match FlatStep(flat, s, i, kwargs)
      case Err(e) => Err(e)
      case Ok(kwargs') => FlatArgs(flat, s, i + 1, kwargs')
  }

  /** One turn of that loop, for field `i`. */
  function FlatStep(flat: Entries, s: Schema, i: nat, kwargs: Kwargs): Result<Kwargs>
    requires i < |s.fields|
    decreases s, 0, |s.fields| - i, 0
  {
    var f := s.fields[i];
    if f.ty.TRecord? then
      match FromFlat(SubDict(flat, f.name), f.ty.schema)
      case Err(e) => Err(e)
      case Ok(r) => Ok(Put(kwargs, f.name, Rec(r)))
    else
      match Get(flat, f.name)
      case Some(v) => Ok(Put(kwargs, f.name, Val(v)))
      case None => Ok(kwargs)
  }

  /** `dataclass_from_flatdict` as a loop; it computes `FromFlat`. */
  method DataclassFromFlatdict(flat: Entries, s: Schema) returns (r: Result<Record>)
    ensures r == FromFlat(flat, s)
    decreases s, 1
  {
    var kwargs := DataclassDefaults(s);
    var i := 0;
    while i < |s.fields|
      invariant 0 <= i <= |s.fields|
      invariant FlatArgs(flat, s, i, kwargs) == FlatArgs(flat, s, 0, Defaults(s.fields))
    {
      var step := FieldFromFlatdict(flat, s, i, kwargs);
      FlatArgsStep(flat, s, i, kwargs);
      if step.Err? {
        return Err(step.error);
      }
      kwargs := step.value;
      i := i + 1;
    }
    r := Construct(s.fields, kwargs);
  }

  /** The body of the field loop of `dataclass_from_flatdict`, for field `i`;
      it computes `FlatStep`. */
  method FieldFromFlatdict(flat: Entries, s: Schema, i: nat, kwargs: Kwargs) returns (r: Result<Kwargs>)
    requires i < |s.fields|
    ensures r == FlatStep(flat, s, i, kwargs)
    decreases s, 0
  {
    var field := s.fields[i];
    if field.ty.TRecord? {
      var subdict := SubDict(flat, field.name);
      var nested := DataclassFromFlatdict(subdict, field.ty.schema);
      if nested.Err? {
        return Err(nested.error);
      }
      r := Ok(Put(kwargs, field.name, Rec(nested.value)));
    } else {
      var value := Get(flat, field.name);
      if value.Some? {
        r := Ok(Put(kwargs, field.name, Val(value.value)));
      } else {
        r := Ok(kwargs);
      }
    }
  }

  lemma FlatArgsStep(flat: Entries, s: Schema, i: nat, kwargs: Kwargs)
    requires i < |s.fields|
    ensures FlatArgs(flat, s, i, kwargs) ==
      match FlatStep(flat, s, i, kwargs) case Err(e) => Err(e) case Ok(k) => FlatArgs(flat, s, i + 1, k)
  {
  }

  /** The entry field `f` holds after its turn of the field loop of
      `dataclass_from_flatdict`, given the entry `prior` it held before: the
      record built from its sub-mapping, else the flat value if there is
      one. */
  function FlatEntry(flat: Entries, f: Field, prior: Option<Member>): Option<Member> {
    if f.ty.TRecord? then
      match FromFlat(SubDict(flat, f.name), f.ty.schema)
      case Ok(r) => Some(Rec(r))
      case Err(_) => prior
    else
      match Get(flat, f.name)
      case Some(v) => Some(Val(v))
      case None => prior
  }

  /** Distinct positions hold distinct names. */
  lemma NamesDiffer(fields: seq<Field>, i: nat, j: nat)
    requires i < |fields| && j < |fields| && UniqueNames(fields)
    ensures i != j ==> fields[i].name != fields[j].name
  {
    if i < j {
      assert fields[i].name != fields[j].name;
    } else if j < i {
      assert fields[j].name != fields[i].name;
    }
  }

  /** One turn of the field loop sets field `i`'s entry, to the record built
      from its sub-mapping or to the flat value if there is one, and leaves
      every other key alone. */
  lemma FlatStepGet(flat: Entries, s: Schema, i: nat, kwargs: Kwargs, n: string)
    requires i < |s.fields| && FlatStep(flat, s, i, kwargs).Ok?
    ensures s.fields[i].ty.TRecord? ==> FromFlat(SubDict(flat, s.fields[i].name), s.fields[i].ty.schema).Ok?
    ensures n != s.fields[i].name ==> Get(FlatStep(flat, s, i, kwargs).value, n) == Get(kwargs, n)
    ensures n == s.fields[i].name ==>
      Get(FlatStep(flat, s, i, kwargs).value, n) == FlatEntry(flat, s.fields[i], Get(kwargs, n))
  {
    var f := s.fields[i];
    if f.ty.TRecord? {
      PutGet(kwargs, f.name, Rec(FromFlat(SubDict(flat, f.name), f.ty.schema).value), n);
    } else if Get(flat, f.name).Some? {
      PutGet(kwargs, f.name, Val(Get(flat, f.name).value), n);
    }
  }

  /** What the field loop leaves under field `j`'s name: an earlier field's
      entry is untouched, and a later one holds its `FlatEntry`; a later
      nested field's record was built. */
  lemma {:induction false} FlatArgsGet(flat: Entries, s: Schema, i: nat, kwargs: Kwargs, j: nat)
    requires i <= |s.fields| && j < |s.fields| && UniqueNames(s.fields)
    requires FlatArgs(flat, s, i, kwargs).Ok?
    ensures j < i ==> Get(FlatArgs(flat, s, i, kwargs).value, s.fields[j].name) == Get(kwargs, s.fields[j].name)
    ensures i <= j ==>
      Get(FlatArgs(flat, s, i, kwargs).value, s.fields[j].name) == FlatEntry(flat, s.fields[j], Get(kwargs, s.fields[j].name))
    ensures i <= j && s.fields[j].ty.TRecord? ==>
      FromFlat(SubDict(flat, s.fields[j].name), s.fields[j].ty.schema).Ok?
    decreases |s.fields| - i
  {
    var n := s.fields[j].name;
    if j < i {
      FlatArgsKeep(flat, s, i, kwargs, n);
    } else {
      var kwargs' := FlatArgsNext(flat, s, i, kwargs);
      FlatStepGet(flat, s, i, kwargs, n);
      if i == j {
        FlatArgsKeep(flat, s, i + 1, kwargs', n);
      } else {
        NamesDiffer(s.fields, i, j);
        FlatArgsGet(flat, s, i + 1, kwargs', j);
      }
    }
  }

  /** The field loop from field `i` on leaves alone a name that no field
      from `i` on has. */
  lemma {:induction false} FlatArgsKeep(flat: Entries, s: Schema, i: nat, kwargs: Kwargs, n: string)
    requires i <= |s.fields| && FlatArgs(flat, s, i, kwargs).Ok?
    requires forall k :: i <= k < |s.fields| ==> s.fields[k].name != n
    ensures Get(FlatArgs(flat, s, i, kwargs).value, n) == Get(kwargs, n)
    decreases |s.fields| - i
  {
    if i < |s.fields| {
      var kwargs' := FlatArgsNext(flat, s, i, kwargs);
      FlatStepGet(flat, s, i, kwargs, n);
      FlatArgsKeep(flat, s, i + 1, kwargs', n);
    }
  }

  lemma FlatArgsNext(flat: Entries, s: Schema, i: nat, kwargs: Kwargs) returns (kwargs': Kwargs)
    requires i < |s.fields| && FlatArgs(flat, s, i, kwargs).Ok?
    ensures FlatStep(flat, s, i, kwargs) == Ok(kwargs')
    ensures FlatArgs(flat, s, i, kwargs) == FlatArgs(flat, s, i + 1, kwargs')
  {
    kwargs' := FlatStep(flat, s, i, kwargs).value;
  }

  /** The field loop of `dataclass_from_flatdict` assigns field names only,
      so seeded with field names it passes no unexpected keyword. */
  lemma {:induction false} FlatArgsNames(flat: Entries, s: Schema, i: nat, kwargs: Kwargs)
    requires i <= |s.fields| && FlatArgs(flat, s, i, kwargs).Ok?
    requires forall k :: k in Keys(kwargs) ==> k in Names(s.fields)
    ensures forall k :: k in Keys(FlatArgs(flat, s, i, kwargs).value) ==> k in Names(s.fields)
    decreases |s.fields| - i
  {
    if i < |s.fields| {
      var f := s.fields[i];
      var kwargs' := FlatArgsNext(flat, s, i, kwargs);
      if f.ty.TRecord? {
        PutKeys(kwargs, f.name, Rec(FromFlat(SubDict(flat, f.name), f.ty.schema).value));
      } else if Get(flat, f.name).Some? {
        PutKeys(kwargs, f.name, Val(Get(flat, f.name).value));
      }
      assert f.name in Names(s.fields);
      FlatArgsNames(flat, s, i + 1, kwargs');
    }
  }

  /** `dataclass_from_flatdict` fails only when the constructor of the
      record or of a nested record misses a required field: no keyword it
      passes is unexpected. */
  lemma {:induction false} FromFlatErrors(flat: Entries, s: Schema)
    ensures FromFlat(flat, s).Err? ==> FromFlat(flat, s).error.MissingArguments?
    decreases s, 1
  {
    FlatArgsErrors(flat, s, 0, Defaults(s.fields));
    if FlatArgs(flat, s, 0, Defaults(s.fields)).Ok? {
      DefaultsFromKeys([], s.fields, 0);
      FlatArgsNames(flat, s, 0, Defaults(s.fields));
    }
  }

  lemma {:induction false} FlatArgsErrors(flat: Entries, s: Schema, i: nat, kwargs: Kwargs)
    requires i <= |s.fields|
    ensures FlatArgs(flat, s, i, kwargs).Err? ==> FlatArgs(flat, s, i, kwargs).error.MissingArguments?
    decreases s, 0, |s.fields| - i
  {
    if i < |s.fields| {
      var f := s.fields[i];
      if f.ty.TRecord? {
        FromFlatErrors(SubDict(flat, f.name), f.ty.schema);
      }
      match FlatStep(flat, s, i, kwargs)
      case Err(_) =>
      case Ok(kwargs') => FlatArgsErrors(flat, s, i + 1, kwargs');
    }
  }

  /** A scalar field of a record built from a flat mapping holds the flat
      value when its name is a key, and otherwise its default (literal, else
      the factory's result). */
  lemma FromFlatScalar(flat: Entries, s: Schema, j: nat)
    requires UniqueNames(s.fields) && j < |s.fields| && !s.fields[j].ty.TRecord?
    requires FromFlat(flat, s).Ok?
    ensures var f := s.fields[j]; var rec := FromFlat(flat, s).value;
      f.name in rec.fields &&
      (Get(flat, f.name).Some? ==> rec.fields[f.name] == Val(Get(flat, f.name).value)) &&
      (Get(flat, f.name).None? ==> FieldDefault(f, None).Some? && rec.fields[f.name] == Val(FieldDefault(f, None).value))
  {
    var f := s.fields[j];
    var kwargs := FlatArgs(flat, s, 0, Defaults(s.fields)).value;
    FlatArgsGet(flat, s, 0, Defaults(s.fields), j);
    DefaultsGet(s.fields, j);
    ConstructGet(s.fields, kwargs, j);
  }

  /** A nested field of a record built from a flat mapping holds the record
      built from the field's sub-mapping. */
  lemma FromFlatNested(flat: Entries, s: Schema, j: nat)
    requires UniqueNames(s.fields) && j < |s.fields| && s.fields[j].ty.TRecord?
    requires FromFlat(flat, s).Ok?
    ensures var f := s.fields[j]; var rec := FromFlat(flat, s).value;
      var nested := FromFlat(SubDict(flat, f.name), f.ty.schema);
      nested.Ok? && f.name in rec.fields && rec.fields[f.name] == Rec(nested.value)
  {
    var kwargs := FlatArgs(flat, s, 0, Defaults(s.fields)).value;
    FlatArgsGet(flat, s, 0, Defaults(s.fields), j);
    ConstructGet(s.fields, kwargs, j);
  }

  /** A record built from a flat mapping has exactly the schema's fields. */
  lemma FromFlatFields(flat: Entries, s: Schema)
    requires UniqueNames(s.fields) && FromFlat(flat, s).Ok?
    ensures forall n :: n in FromFlat(flat, s).value.fields <==> n in Names(s.fields)
  {
    var kwargs := FlatArgs(flat, s, 0, Defaults(s.fields)).value;
    forall n | n in Names(s.fields) ensures n in FromFlat(flat, s).value.fields {
      var j :| 0 <= j < |s.fields| && Names(s.fields)[j] == n;
      ConstructGet(s.fields, kwargs, j);
    }
    BindKeys(s.fields, kwargs);
  }

  /** Construction fails when a required scalar field (no default, no
      factory) is not a key of the flat mapping. */
  lemma FromFlatMissing(flat: Entries, s: Schema, j: nat)
    requires UniqueNames(s.fields) && j < |s.fields| && !s.fields[j].ty.TRecord?
    requires s.fields[j].default.None? && s.fields[j].factory.None?
    requires s.fields[j].name !in Keys(flat)
    ensures FromFlat(flat, s).Err? && FromFlat(flat, s).error.MissingArguments?
  {
    FromFlatErrors(flat, s);
    var f := s.fields[j];
    match FlatArgs(flat, s, 0, Defaults(s.fields))
    case Err(_) =>
    case Ok(kwargs) =>
      FlatArgsGet(flat, s, 0, Defaults(s.fields), j);
      DefaultsGet(s.fields, j);
      GetKeys(flat, f.name);
      assert Bound(f, kwargs).None?;
  }

  lemma {:induction false} SubDictFromGet(acc: Entries, flat: Entries, i: nat, name: string, k: string)
    requires i <= |flat| && Distinct(Keys(flat))
    requires k in Keys(acc) ==> forall j :: i <= j < |flat| ==> flat[j].0 != name + "." + k
    ensures Get(SubDictFrom(acc, flat, i, name), k) ==
      if name + "." + k in Keys(flat[i..]) then Get(flat[i..], name + "." + k) else Get(acc, k)
    decreases |flat| - i
  {
    if i < |flat| {
      var key := flat[i].0;
      var q := name + "." + k;
      assert flat[i..][0] == flat[i] && flat[i..][1..] == flat[i + 1..];
      KeysCons(flat[i..]);
      if name + "." <= key {
        var stripped := key[|name| + 1..];
        assert key == (name + ".") + stripped;
        PrefixStrip(name + ".", key, k);
        var acc' := Put(acc, stripped, flat[i].1);
        PutGet(acc, stripped, flat[i].1, k);
        PutKeys(acc, stripped, flat[i].1);
        forall j | i + 1 <= j < |flat| ensures k in Keys(acc') ==> flat[j].0 != q {
          assert Keys(flat)[i] == key && Keys(flat)[j] == flat[j].0;
          assert Keys(flat)[i] != Keys(flat)[j];
          if k in Keys(acc') && k !in Keys(acc) {
            assert k == stripped;
          }
        }
        SubDictFromGet(acc', flat, i + 1, name, k);
      } else {
        assert key != q;
        SubDictFromGet(acc, flat, i + 1, name, k);
      }
    }
  }

  lemma PrefixStrip(p: string, key: string, k: string)
    requires p <= key
    ensures key[|p|..] == k <==> key == p + k
  {
  }

  /** In a flat mapping with distinct keys, the sub-mapping of `name` holds
      under `k` exactly what the flat mapping holds under `name.k`. */
  lemma SubDictGet(flat: Entries, name: string, k: string)
    requires Distinct(Keys(flat))
    ensures Get(SubDict(flat, name), k) == Get(flat, name + "." + k)
  {
    SubDictFromGet([], flat, 0, name, k);
    assert flat[0..] == flat;
    GetKeys(flat, name + "." + k);
  }

  /** As written, a key that merely starts with the field's name leaks into
      the sub-mapping: beside a nested field `inner`, the scalar `inner_s`
      arrives as `s`. */
  lemma SubDictAsWrittenLeaks()
    ensures SubDictAsWritten([("inner_s", Int(1))], "inner") == [("s", Int(1))]
    ensures SubDict([("inner_s", Int(1))], "inner") == []
  {
    var flat := [("inner_s", Int(1))];
    assert "inner" <= "inner_s";
    assert "inner_s"[6..] == "s";
    assert SubDictAsWrittenFrom([], flat, 0, "inner") == SubDictAsWrittenFrom([("s", Int(1))], flat, 1, "inner");
    assert !("inner." <= "inner_s") by { assert "inner_s"[5] != '.'; }
  }

  // ---------------------------------------------------------------------
  // dataclass_from_dict
  // ---------------------------------------------------------------------

  /** `dataclass_from_dict(kwargs, dataclass)`. */
  function FromDict(kwargs: Value, s: Schema): Result<Record>
    decreases s, 1
  {
    match DictArgs(kwargs, s, 0, Defaults(s.fields))
    case Err(e) => Err(e)
    case Ok(init) => Construct(s.fields, init)
  }

  /** The field loop of `dataclass_from_dict` from field `i` on. */
  function DictArgs(kwargs: Value, s: Schema, i: nat, init: Kwargs): Result<Kwargs>
    requires i <= |s.fields|
    decreases s, 0, |s.fields| - i, 1
  {
    if i == |s.fields| then Ok(init)
    else
      match DictStep(kwargs, s, i, init)
      case Err(e) => Err(e)
      case Ok(init') => DictArgs(kwargs, s, i + 1, init')
  }

  /** One turn of that loop, for field `i`. On a value that is not a
      mapping, `kwargs[name]` raises TypeError and `kwargs.get(name)`
      AttributeError. */
  function DictStep(kwargs: Value, s: Schema, i: nat, init: Kwargs): Result<Kwargs>
    requires i < |s.fields|
    decreases s, 0, |s.fields| - i, 0
  {
    var f := s.fields[i];
    if f.ty.TRecord? then
      if !kwargs.Dict? then Err(TypeError)
      else match Get(kwargs.entries, f.name)
        case None => Err(KeyError(f.name))
        case Some(v) =>
          match FromDict(v, f.ty.schema)
          case Err(e) => Err(e)
          case Ok(r) => Ok(Put(init, f.name, Rec(r)))
    else if !kwargs.Dict? then Err(AttributeError)
    else match Get(kwargs.entries, f.name)
      case Some(v) => Ok(Put(init, f.name, Val(v)))
      case None => Ok(init)
  }

  /** `dataclass_from_dict` as a loop; it computes `FromDict`. */
  method DataclassFromDict(kwargs: Value, s: Schema) returns (r: Result<Record>)
    ensures r == FromDict(kwargs, s)
    decreases s, 1
  {
    var init := DataclassDefaults(s);
    var i := 0;
    while i < |s.fields|
      invariant 0 <= i <= |s.fields|
      invariant DictArgs(kwargs, s, i, init) == DictArgs(kwargs, s, 0, Defaults(s.fields))
    {
      var step := FieldFromDict(kwargs, s, i, init);
      DictArgsStep(kwargs, s, i, init);
      if step.Err? {
        return Err(step.error);
      }
      init := step.value;
      i := i + 1;
    }
    r := Construct(s.fields, init);
  }

  /** The body of the field loop of `dataclass_from_dict`, for field `i`;
      it computes `DictStep`. */
  method FieldFromDict(kwargs: Value, s: Schema, i: nat, init: Kwargs) returns (r: Result<Kwargs>)
    requires i < |s.fields|
    ensures r == DictStep(kwargs, s, i, init)
    decreases s, 0
  {
    var field := s.fields[i];
    if !kwargs.Dict? {
      return Err(if field.ty.TRecord? then TypeError else AttributeError);
    }
    var value := Get(kwargs.entries, field.name);
    if field.ty.TRecord? {
      if value.None? {
        return Err(KeyError(field.name));
      }
      var nested := DataclassFromDict(value.value, field.ty.schema);
      if nested.Err? {
        return Err(nested.error);
      }
      r := Ok(Put(init, field.name, Rec(nested.value)));
    } else if value.Some? {
      r := Ok(Put(init, field.name, Val(value.value)));
    } else {
      r := Ok(init);
    }
  }

  lemma DictArgsStep(kwargs: Value, s: Schema, i: nat, init: Kwargs)
    requires i < |s.fields|
    ensures DictArgs(kwargs, s, i, init) ==
      match DictStep(kwargs, s, i, init) case Err(e) => Err(e) case Ok(k) => DictArgs(kwargs, s, i + 1, k)
  {
  }

  /** The entry field `f` holds after its turn of the field loop of
      `dataclass_from_dict` on the mapping `entries`, given the entry
      `prior` it held before: the record built from the value under its
      name, else that value if there is one. */
  function DictEntry(entries: Entries, f: Field, prior: Option<Member>): Option<Member> {
    match Get(entries, f.name)
    case None => prior
    case Some(v) =>
      if f.ty.TRecord? then
        match FromDict(v, f.ty.schema)
        case Ok(r) => Some(Rec(r))
        case Err(_) => prior
      else Some(Val(v))
  }

  lemma DictStepGet(kwargs: Value, s: Schema, i: nat, init: Kwargs, n: string)
    requires i < |s.fields| && DictStep(kwargs, s, i, init).Ok?
    ensures kwargs.Dict?
    ensures s.fields[i].ty.TRecord? ==>
      Get(kwargs.entries, s.fields[i].name).Some? &&
      FromDict(Get(kwargs.entries, s.fields[i].name).value, s.fields[i].ty.schema).Ok?
    ensures n != s.fields[i].name ==> Get(DictStep(kwargs, s, i, init).value, n) == Get(init, n)
    ensures n == s.fields[i].name ==>
      Get(DictStep(kwargs, s, i, init).value, n) == DictEntry(kwargs.entries, s.fields[i], Get(init, n))
  {
    var f := s.fields[i];
    if f.ty.TRecord? {
      PutGet(init, f.name, Rec(FromDict(Get(kwargs.entries, f.name).value, f.ty.schema).value), n);
    } else if Get(kwargs.entries, f.name).Some? {
      PutGet(init, f.name, Val(Get(kwargs.entries, f.name).value), n);
    }
  }

  /** What the field loop leaves under field `j`'s name: an earlier field's
      entry is untouched, and a later one holds its `DictEntry`; a later
      nested field's name is a key and its record was built. */
  lemma {:induction false} DictArgsGet(kwargs: Value, s: Schema, i: nat, init: Kwargs, j: nat)
    requires i <= |s.fields| && j < |s.fields| && UniqueNames(s.fields)
    requires DictArgs(kwargs, s, i, init).Ok?
    ensures i < |s.fields| ==> kwargs.Dict?
    ensures j < i ==> Get(DictArgs(kwargs, s, i, init).value, s.fields[j].name) == Get(init, s.fields[j].name)
    ensures i <= j ==>
      kwargs.Dict? &&
      Get(DictArgs(kwargs, s, i, init).value, s.fields[j].name) == DictEntry(kwargs.entries, s.fields[j], Get(init, s.fields[j].name))
    ensures i <= j && s.fields[j].ty.TRecord? ==>
      kwargs.Dict? && Get(kwargs.entries, s.fields[j].name).Some? &&
      FromDict(Get(kwargs.entries, s.fields[j].name).value, s.fields[j].ty.schema).Ok?
    decreases |s.fields| - i
  {
    if i < |s.fields| {
      var init' := DictStep(kwargs, s, i, init).value;
      DictArgsStep(kwargs, s, i, init);
      DictStepGet(kwargs, s, i, init, s.fields[j].name);
      NamesDiffer(s.fields, i, j);
      DictArgsGet(kwargs, s, i + 1, init', j);
    }
  }

  /** The field loop of `dataclass_from_dict` assigns field names only, so
      seeded with field names it passes no unexpected keyword. */
  lemma {:induction false} DictArgsNames(kwargs: Value, s: Schema, i: nat, init: Kwargs)
    requires i <= |s.fields| && DictArgs(kwargs, s, i, init).Ok?
    requires forall k :: k in Keys(init) ==> k in Names(s.fields)
    ensures forall k :: k in Keys(DictArgs(kwargs, s, i, init).value) ==> k in Names(s.fields)
    decreases |s.fields| - i
  {
    if i < |s.fields| {
      var f := s.fields[i];
      var init' := DictStep(kwargs, s, i, init).value;
      DictArgsStep(kwargs, s, i, init);
      if f.ty.TRecord? {
        PutKeys(init, f.name, Rec(FromDict(Get(kwargs.entries, f.name).value, f.ty.schema).value));
      } else if Get(kwargs.entries, f.name).Some? {
        PutKeys(init, f.name, Val(Get(kwargs.entries, f.name).value));
      }
      assert f.name in Names(s.fields);
      DictArgsNames(kwargs, s, i + 1, init');
    }
  }

  /** `dataclass_from_dict` never passes an unexpected keyword: it fails by
      a lookup on a non-mapping or a missing nested key, or because a
      constructor misses a required field. */
  lemma {:induction false} FromDictErrors(kwargs: Value, s: Schema)
    ensures FromDict(kwargs, s).Err? ==> !FromDict(kwargs, s).error.UnexpectedArgument?
    decreases s, 1
  {
    DictArgsErrors(kwargs, s, 0, Defaults(s.fields));
    if DictArgs(kwargs, s, 0, Defaults(s.fields)).Ok? {
      DefaultsFromKeys([], s.fields, 0);
      DictArgsNames(kwargs, s, 0, Defaults(s.fields));
    }
  }

  lemma {:induction false} DictArgsErrors(kwargs: Value, s: Schema, i: nat, init: Kwargs)
    requires i <= |s.fields|
    ensures DictArgs(kwargs, s, i, init).Err? ==> !DictArgs(kwargs, s, i, init).error.UnexpectedArgument?
    decreases s, 0, |s.fields| - i
  {
    if i < |s.fields| {
      var f := s.fields[i];
      if f.ty.TRecord? && kwargs.Dict? && Get(kwargs.entries, f.name).Some? {
        FromDictErrors(Get(kwargs.entries, f.name).value, f.ty.schema);
      }
      match DictStep(kwargs, s, i, init)
      case Err(_) =>
      case Ok(init') => DictArgsErrors(kwargs, s, i + 1, init');
    }
  }

  /** A scalar field of a record built from a nested mapping holds the
      mapping's value when its name is a key, and otherwise its default. */
  lemma FromDictScalar(kwargs: Value, s: Schema, j: nat)
    requires UniqueNames(s.fields) && j < |s.fields| && !s.fields[j].ty.TRecord?
    requires FromDict(kwargs, s).Ok?
    ensures kwargs.Dict?
    ensures var f := s.fields[j]; var rec := FromDict(kwargs, s).value;
      f.name in rec.fields &&
      (Get(kwargs.entries, f.name).Some? ==> rec.fields[f.name] == Val(Get(kwargs.entries, f.name).value)) &&
      (Get(kwargs.entries, f.name).None? ==> FieldDefault(f, None).Some? && rec.fields[f.name] == Val(FieldDefault(f, None).value))
  {
    var f := s.fields[j];
    var init := DictArgs(kwargs, s, 0, Defaults(s.fields)).value;
    DictArgsGet(kwargs, s, 0, Defaults(s.fields), j);
    DefaultsGet(s.fields, j);
    ConstructGet(s.fields, init, j);
  }

  /** A nested field of a record built from a nested mapping requires its
      name to be a key, and holds the record built from the value there. */
  lemma FromDictNested(kwargs: Value, s: Schema, j: nat)
    requires UniqueNames(s.fields) && j < |s.fields| && s.fields[j].ty.TRecord?
    requires FromDict(kwargs, s).Ok?
    ensures kwargs.Dict? && s.fields[j].name in Keys(kwargs.entries)
    ensures kwargs.Dict? && Get(kwargs.entries, s.fields[j].name).Some?
    ensures var f := s.fields[j]; var rec := FromDict(kwargs, s).value;
      var nested := FromDict(Get(kwargs.entries, f.name).value, f.ty.schema);
      nested.Ok? && f.name in rec.fields && rec.fields[f.name] == Rec(nested.value)
  {
    var init := DictArgs(kwargs, s, 0, Defaults(s.fields)).value;
    DictArgsGet(kwargs, s, 0, Defaults(s.fields), j);
    GetKeys(kwargs.entries, s.fields[j].name);
    ConstructGet(s.fields, init, j);
  }

  /** Construction fails when a required scalar field is not a key of the
      mapping. */
  lemma FromDictMissing(kwargs: Value, s: Schema, j: nat)
    requires UniqueNames(s.fields) && j < |s.fields| && !s.fields[j].ty.TRecord?
    requires s.fields[j].default.None? && s.fields[j].factory.None?
    requires kwargs.Dict? && s.fields[j].name !in Keys(kwargs.entries)
    ensures FromDict(kwargs, s).Err?
  {
    var f := s.fields[j];
    match DictArgs(kwargs, s, 0, Defaults(s.fields))
    case Err(_) =>
    case Ok(init) =>
      DictArgsGet(kwargs, s, 0, Defaults(s.fields), j);
      DefaultsGet(s.fields, j);
      GetKeys(kwargs.entries, f.name);
      assert Bound(f, init).None?;
  }

  /** A value that is not a mapping yields no record of a schema with at
      least one field: the first field's lookup raises. */
  lemma FromDictNotMapping(kwargs: Value, s: Schema)
    requires !kwargs.Dict? && |s.fields| >= 1
    ensures FromDict(kwargs, s) == Err(if s.fields[0].ty.TRecord? then TypeError else AttributeError)
  {
    var e := if s.fields[0].ty.TRecord? then TypeError else AttributeError;
    assert DictStep(kwargs, s, 0, Defaults(s.fields)) == Err(e);
    assert DictArgs(kwargs, s, 0, Defaults(s.fields)) == Err(e);
  }
}
