/** `scouttwang.flatdict`: converting between a nested string-keyed mapping and
    a flat mapping whose keys are dot-joined paths. */
module FlatDict {
  import opened Values
  import opened PyDict

  /** A path of keys from the top of a nested mapping down to one value. */
  type Path = seq<string>

  // ---------------------------------------------------------------------
  // `str.split(".")` and `".".join`
  // ---------------------------------------------------------------------

  predicate DotFree(s: string) {
    '.' !in s
  }

  /** `s.split(".")`: never empty, and no piece contains a dot. */
  function Split(s: string): (parts: seq<string>)
    ensures |parts| >= 1
    ensures forall i :: 0 <= i < |parts| ==> DotFree(parts[i])
  {
    if s == [] then [""]
    else
      var rest := Split(s[1..]);
      if s[0] == '.' then [""] + rest else [[s[0]] + rest[0]] + rest[1..]
  }

  /** `".".join(parts)`. */
  function Join(parts: seq<string>): string
    requires |parts| >= 1
    decreases |parts|
  {
    if |parts| == 1 then parts[0] else parts[0] + "." + Join(parts[1..])
  }

  ghost predicate Segments(path: Path) {
    |path| >= 1 && forall i :: 0 <= i < |path| ==> DotFree(path[i])
  }

  /** Splitting loses nothing: joining the pieces gives the key back. */
  lemma {:induction false} JoinSplit(s: string)
    ensures Join(Split(s)) == s
  {
    if s != [] {
      var rest := Split(s[1..]);
      JoinSplit(s[1..]);
      if s[0] == '.' {
        assert Split(s) == [""] + rest;
        assert Join(Split(s)) == "" + "." + Join(rest);
        assert s == "." + s[1..];
      } else if |rest| == 1 {
        assert Split(s) == [[s[0]] + rest[0]];
        assert s == [s[0]] + s[1..];
      } else {
        var parts := [[s[0]] + rest[0]] + rest[1..];
        assert Split(s) == parts;
        assert parts[1..] == rest[1..];
        assert Join(rest) == rest[0] + "." + Join(rest[1..]);
        assert Join(parts) == ([s[0]] + rest[0]) + "." + Join(rest[1..]);
        assert s == [s[0]] + s[1..];
      }
    }
  }

  lemma {:induction false} SplitDotFreePrefix(k: string, x: string)
    requires DotFree(k)
    ensures Split(k + x) == [k + Split(x)[0]] + Split(x)[1..]
    decreases |k|
  {
    if k == [] {
      assert k + x == x;
      assert k + Split(x)[0] == Split(x)[0];
      assert Split(x) == [Split(x)[0]] + Split(x)[1..];
    } else {
      var w := k[1..] + x;
      assert (k + x)[0] == k[0] && (k + x)[1..] == w;
      assert k[0] != '.' by { assert k[0] in k; }
      SplitDotFreePrefix(k[1..], x);
      assert Split(k + x) == [[k[0]] + Split(w)[0]] + Split(w)[1..];
      assert [k[0]] + (k[1..] + Split(x)[0]) == k + Split(x)[0] by {
        assert k == [k[0]] + k[1..];
      }
    }
  }

  /** Joining dot-free pieces and splitting again gives the pieces back. */
  lemma {:induction false} SplitJoin(path: Path)
    requires Segments(path)
    ensures Split(Join(path)) == path
    decreases |path|
  {
    if |path| == 1 {
      SplitDotFreePrefix(path[0], "");
      assert path[0] + "" == path[0];
    } else {
      var j := Join(path[1..]);
      SplitJoin(path[1..]);
      assert Join(path) == path[0] + ("." + j);
      SplitDotFreePrefix(path[0], "." + j);
      assert ("." + j)[0] == '.' && ("." + j)[1..] == j;
      assert Split("." + j) == [""] + path[1..];
      assert path[0] + "" == path[0];
      assert path == [path[0]] + path[1..];
    }
  }

  lemma JoinInjective(a: Path, b: Path)
    requires Segments(a) && Segments(b)
    ensures Join(a) == Join(b) ==> a == b
  {
    SplitJoin(a);
    SplitJoin(b);
  }

  // ---------------------------------------------------------------------
  // flatdict_to_hierarchical
  // ---------------------------------------------------------------------

  /** The value reached from `d` by following `path`, if every step finds a
      mapping. */
  function GetPath(d: Entries, path: Path): Option<Value>
    requires |path| >= 1
    decreases |path|
  {
    match Get(d, path[0])
    case None => None
    case Some(v) =>
      if |path| == 1 then Some(v)
      else if v.Dict? then GetPath(v.entries, path[1..])
      else None
  }

  ghost predicate IsPrefix(a: Path, b: Path) {
    |a| <= |b| && b[..|a|] == a
  }

  /** Neither path lies on the other: setting one leaves the other alone. */
  ghost predicate Incomparable(a: Path, b: Path) {
    !IsPrefix(a, b) && !IsPrefix(b, a)
  }

  /** Setting `keys` can succeed: no proper prefix of it names a value that is
      not a mapping. */
  ghost predicate Walkable(d: Entries, keys: Path)
    requires |keys| >= 1
  {
    forall n :: 1 <= n < |keys| ==> GetPath(d, keys[..n]).None? || GetPath(d, keys[..n]).value.Dict?
  }

  /** `_inner_setitem(keys, value)`: walk down the keys but the last, inserting
      an empty mapping for each missing one, then assign the value under the
      last key. Stepping into a value that is not a mapping raises TypeError. */
  function SetPath(d: Entries, keys: Path, v: Value): Result<Entries>
    requires |keys| >= 1
    decreases |keys|
  {
    if |keys| == 1 then Ok(Put(d, keys[0], v))
    else
      var child := match Get(d, keys[0]) case None => Dict([]) case Some(c) => c;
      if !child.Dict? then Err(TypeError)
      else match SetPath(child.entries, keys[1..], v)
        case Err(e) => Err(e)
        case Ok(entries) => Ok(Put(d, keys[0], Dict(entries)))
  }

  ghost predicate PathsNonEmpty(ps: seq<(Path, Value)>) {
    forall i :: 0 <= i < |ps| ==> |ps[i].0| >= 1
  }

  /** `_inner_setitem` applied to each (path, value) in order; the first
      failure ends the walk. */
  function SetPaths(d: Entries, ps: seq<(Path, Value)>): Result<Entries>
    requires PathsNonEmpty(ps)
    decreases |ps|
  {
    if ps == [] then Ok(d)
    else match SetPath(d, ps[0].0, ps[0].1)
      case Err(e) => Err(e)
      case Ok(d') => SetPaths(d', ps[1..])
  }

  function SplitKeys(flat: Entries): seq<(Path, Value)> {
    seq(|flat|, i requires 0 <= i < |flat| => (Split(flat[i].0), flat[i].1))
  }

  /** `flatdict_to_hierarchical(flat)`. */
  function Unflatten(flat: Entries): Result<Entries> {
    SetPaths([], SplitKeys(flat))
  }

  /** `flatdict_to_hierarchical(flat)` as a loop; it computes `Unflatten`. */
  method FlatdictToHierarchical(flat: Entries) returns (r: Result<Entries>)
    ensures r == Unflatten(flat)
  {
    ghost var ps := SplitKeys(flat);
    var kwargs: Entries := [];
    var i := 0;
    while i < |flat|
      invariant 0 <= i <= |flat|
      invariant SetPaths(kwargs, ps[i..]) == Unflatten(flat)
    {
      assert ps[i..][1..] == ps[i + 1..];
      var step := SetPath(kwargs, Split(flat[i].0), flat[i].1);
      if step.Err? {
        return Err(step.error);
      }
      kwargs := step.value;
      i := i + 1;
    }
    return Ok(kwargs);
  }

  /** The value lands at its path. */
  lemma {:induction false} SetPathPlaces(d: Entries, keys: Path, v: Value)
    requires |keys| >= 1 && SetPath(d, keys, v).Ok?
    ensures GetPath(SetPath(d, keys, v).value, keys) == Some(v)
    decreases |keys|
  {
    var d' := SetPath(d, keys, v).value;
    if |keys| == 1 {
      PutGet(d, keys[0], v, keys[0]);
    } else {
      SetPathStep(d, keys, v);
      var child := match Get(d, keys[0]) case None => Dict([]) case Some(c) => c;
      var inner := SetPath(child.entries, keys[1..], v).value;
      PutGet(d, keys[0], Dict(inner), keys[0]);
      SetPathPlaces(child.entries, keys[1..], v);
      GetPathStep(d', keys);
    }
  }

  /** Every proper prefix of the path names a mapping afterwards: missing
      intermediate mappings have been created. */
  lemma {:induction false} SetPathCreatesMappings(d: Entries, keys: Path, v: Value, n: nat)
    requires |keys| >= 1 && SetPath(d, keys, v).Ok?
    requires 1 <= n < |keys|
    ensures GetPath(SetPath(d, keys, v).value, keys[..n]).Some?
    ensures GetPath(SetPath(d, keys, v).value, keys[..n]).value.Dict?
    decreases |keys|
  {
    SetPathStep(d, keys, v);
    var child := match Get(d, keys[0]) case None => Dict([]) case Some(c) => c;
    var inner := SetPath(child.entries, keys[1..], v).value;
    var d' := SetPath(d, keys, v).value;
    PutGet(d, keys[0], Dict(inner), keys[0]);
    var p := keys[..n];
    assert p[0] == keys[0];
    if n > 1 {
      GetPathStep(d', p);
      assert p[1..] == keys[1..][..n - 1];
      SetPathCreatesMappings(child.entries, keys[1..], v, n - 1);
    }
  }

  lemma SingletonPrefix(a: Path, b: Path)
    requires |a| >= 1 && |b| >= 1 && a[0] == b[0]
    ensures |a| == 1 ==> IsPrefix(a, b)
  {
    if |a| == 1 {
      assert b[..1] == [b[0]] && a == [a[0]];
    }
  }

  lemma PrefixCons(a: Path, b: Path)
    requires |a| >= 1 && |b| >= 1 && a[0] == b[0]
    ensures IsPrefix(a[1..], b[1..]) ==> IsPrefix(a, b)
  {
    if IsPrefix(a[1..], b[1..]) {
      assert b[..|a|] == [b[0]] + b[1..][..|a| - 1];
      assert a == [a[0]] + a[1..];
    }
  }

  /** Setting one path leaves every path incomparable with it unchanged, so
      existing intermediate mappings are reused rather than replaced. */
  lemma {:induction false} SetPathElsewhere(d: Entries, keys: Path, v: Value, q: Path)
    requires |keys| >= 1 && |q| >= 1 && SetPath(d, keys, v).Ok?
    requires Incomparable(q, keys)
    ensures GetPath(SetPath(d, keys, v).value, q) == GetPath(d, q)
    decreases |keys|
  {
    var d' := SetPath(d, keys, v).value;
    if q[0] != keys[0] {
      if |keys| == 1 {
        PutGet(d, keys[0], v, q[0]);
      } else {
        SetPathStep(d, keys, v);
        var child := match Get(d, keys[0]) case None => Dict([]) case Some(c) => c;
        PutGet(d, keys[0], Dict(SetPath(child.entries, keys[1..], v).value), q[0]);
      }
    } else {
      SingletonPrefix(q, keys);
      SingletonPrefix(keys, q);
      assert |q| >= 2 && |keys| >= 2;
      SetPathStep(d, keys, v);
      var child := match Get(d, keys[0]) case None => Dict([]) case Some(c) => c;
      var inner := SetPath(child.entries, keys[1..], v).value;
      PutGet(d, keys[0], Dict(inner), keys[0]);
      PrefixCons(q, keys);
      PrefixCons(keys, q);
      SetPathElsewhere(child.entries, keys[1..], v, q[1..]);
      GetPathStep(d', q);
      GetPathStep(d, q);
      if Get(d, keys[0]).None? {
        assert GetPath(child.entries, q[1..]) == None;
      }
    }
  }

  lemma GetPathStep(d: Entries, path: Path)
    requires |path| >= 2
    ensures GetPath(d, path) ==
      match Get(d, path[0]) case Some(v) => (if v.Dict? then GetPath(v.entries, path[1..]) else None) case None => None
  {
  }

  lemma SetPathStep(d: Entries, keys: Path, v: Value)
    requires |keys| >= 2 && SetPath(d, keys, v).Ok?
    ensures var child := match Get(d, keys[0]) case None => Dict([]) case Some(c) => c;
      child.Dict? && SetPath(child.entries, keys[1..], v).Ok? &&
      SetPath(d, keys, v).value == Put(d, keys[0], Dict(SetPath(child.entries, keys[1..], v).value))
  {
  }

  /** Setting succeeds exactly when the walk meets no value that is not a
      mapping. */
  lemma {:induction false} SetPathSucceeds(d: Entries, keys: Path, v: Value)
    requires |keys| >= 1
    ensures SetPath(d, keys, v).Ok? <==> Walkable(d, keys)
    ensures SetPath(d, keys, v).Err? ==> SetPath(d, keys, v).error == TypeError
    decreases |keys|
  {
    if |keys| > 1 {
      var child := match Get(d, keys[0]) case None => Dict([]) case Some(c) => c;
      assert keys[..1] == [keys[0]];
      assert GetPath(d, keys[..1]) == Get(d, keys[0]);
      if child.Dict? {
        SetPathSucceeds(child.entries, keys[1..], v);
        forall n | 2 <= n < |keys|
          ensures GetPath(d, keys[..n]) == GetPath(child.entries, keys[1..][..n - 1])
        {
          assert keys[..n][1..] == keys[1..][..n - 1];
          assert keys[..n][0] == keys[0];
        }
        if Walkable(child.entries, keys[1..]) {
          forall n | 1 <= n < |keys|
            ensures GetPath(d, keys[..n]).None? || GetPath(d, keys[..n]).value.Dict?
          {
            if n >= 2 {
              assert GetPath(d, keys[..n]) == GetPath(child.entries, keys[1..][..n - 1]);
            }
          }
        }
        if Walkable(d, keys) {
          forall m | 1 <= m < |keys| - 1
            ensures GetPath(child.entries, keys[1..][..m]).None? || GetPath(child.entries, keys[1..][..m]).value.Dict?
          {
            assert GetPath(d, keys[..m + 1]) == GetPath(child.entries, keys[1..][..m]);
          }
        }
      }
    }
  }

  /** A sequence of sets leaves alone every path incomparable with all of
      the paths it sets. */
  lemma {:induction false} SetPathsElsewhere(d: Entries, ps: seq<(Path, Value)>, q: Path)
    requires PathsNonEmpty(ps) && |q| >= 1 && SetPaths(d, ps).Ok?
    requires forall j :: 0 <= j < |ps| ==> Incomparable(q, ps[j].0)
    ensures GetPath(SetPaths(d, ps).value, q) == GetPath(d, q)
    decreases |ps|
  {
    if ps != [] {
      var d' := SetPath(d, ps[0].0, ps[0].1).value;
      SetPathElsewhere(d, ps[0].0, ps[0].1, q);
      SetPathsElsewhere(d', ps[1..], q);
    }
  }

  /** The value set for a path survives every later set of an incomparable
      path: of several sets of one path, the last wins. */
  lemma {:induction false} SetPathsLastWins(d: Entries, ps: seq<(Path, Value)>, i: nat)
    requires PathsNonEmpty(ps) && SetPaths(d, ps).Ok?
    requires i < |ps|
    requires forall j :: i < j < |ps| ==> Incomparable(ps[i].0, ps[j].0)
    ensures GetPath(SetPaths(d, ps).value, ps[i].0) == Some(ps[i].1)
    decreases |ps|
  {
    var d' := SetPath(d, ps[0].0, ps[0].1).value;
    if i == 0 {
      SetPathPlaces(d, ps[0].0, ps[0].1);
      SetPathsElsewhere(d', ps[1..], ps[0].0);
    } else {
      SetPathsLastWins(d', ps[1..], i - 1);
    }
  }

  /** The entry of a flat mapping lands at the path its key names, unless a
      later key's path lies on it. */
  lemma UnflattenPlaces(flat: Entries, i: nat)
    requires Unflatten(flat).Ok? && i < |flat|
    requires forall j :: i < j < |flat| ==> Incomparable(Split(flat[i].0), Split(flat[j].0))
    ensures GetPath(Unflatten(flat).value, Split(flat[i].0)) == Some(flat[i].1)
  {
    SetPathsLastWins([], SplitKeys(flat), i);
  }

  /** A key without a dot becomes a top-level entry holding its value, unless
      a later key starts with the same segment. */
  lemma UnflattenTopLevel(flat: Entries, i: nat)
    requires Unflatten(flat).Ok? && i < |flat| && DotFree(flat[i].0)
    requires forall j :: i < j < |flat| ==> Split(flat[j].0)[0] != flat[i].0
    ensures Get(Unflatten(flat).value, flat[i].0) == Some(flat[i].1)
  {
    var k := flat[i].0;
    SplitJoin([k]);
    assert Split(k) == [k];
    forall j | i < j < |flat| ensures Incomparable(Split(k), Split(flat[j].0)) {
      assert Split(flat[j].0)[..1] == [Split(flat[j].0)[0]];
    }
    UnflattenPlaces(flat, i);
  }

  // ---------------------------------------------------------------------
  // flatten_dict
  // ---------------------------------------------------------------------

  /** The loop of `_inner_flatten(kwargs, prefix)` from entry `i` on, filling
      `acc`, with the recursive call made as intended: a mapping value is
      flattened under the prefix `prefix + key + "."` and merged in with
      `update`; any other value, sequences included, is stored under
      `prefix + key`. */
  function FlattenFrom(acc: Entries, items: Entries, i: nat, prefix: string): Entries
    requires i <= |items|
    decreases Dict(items), |items| - i
  {
    if i == |items| then acc
    else
      var key := items[i].0;
      var value := items[i].1;
      var acc' :=
        if value.Dict? then Update(acc, FlattenFrom([], value.entries, 0, prefix + key + "."))
        else Put(acc, prefix + key, value);
      FlattenFrom(acc', items, i + 1, prefix)
  }

  /** `flatten_dict(d)`, with the recursion as intended. */
  function Flatten(d: Entries): Entries {
    FlattenFrom([], d, 0, "")
  }

  /** The same loop as written: its recursive call `flatten_dict(value, ...)`
      passes two arguments to a function of one parameter, so meeting any
      mapping value raises TypeError. */
  function FlattenFromAsWritten(acc: Entries, items: Entries, i: nat, prefix: string): Result<Entries>
    requires i <= |items|
    decreases |items| - i
  {
    if i == |items| then Ok(acc)
    else if items[i].1.Dict? then Err(TypeError)
    else FlattenFromAsWritten(Put(acc, prefix + items[i].0, items[i].1), items, i + 1, prefix)
  }

  /** `flatten_dict(d)` as written. */
  function FlattenAsWritten(d: Entries): Result<Entries> {
    FlattenFromAsWritten([], d, 0, "")
  }

  /** `_inner_flatten(kwargs, prefix)`, recursion as intended; it computes
      `FlattenFrom`. */
  method InnerFlatten(kwargs: Entries, prefix: string) returns (flatdict: Entries)
    ensures flatdict == FlattenFrom([], kwargs, 0, prefix)
    decreases Dict(kwargs), 1
  {
    flatdict := [];
    var i := 0;
    while i < |kwargs|
      invariant 0 <= i <= |kwargs|
      invariant FlattenFrom(flatdict, kwargs, i, prefix) == FlattenFrom([], kwargs, 0, prefix)
    {
      flatdict := FlattenEntry(flatdict, kwargs, i, prefix);
      i := i + 1;
    }
  }

  /** One turn of the loop of `_inner_flatten`, for entry `i`: a mapping
      value is flattened under `prefix + key + "."` and merged in, any other
      value stored under `prefix + key`. It is one step of `FlattenFrom`. */
  method FlattenEntry(flatdict: Entries, kwargs: Entries, i: nat, prefix: string) returns (r: Entries)
    requires i < |kwargs|
    ensures FlattenFrom(r, kwargs, i + 1, prefix) == FlattenFrom(flatdict, kwargs, i, prefix)
    decreases Dict(kwargs), 0
  {
    FlattenFromStep(flatdict, kwargs, i, prefix);
    var key := kwargs[i].0;
    var value := kwargs[i].1;
    if value.Dict? {
      var sub := InnerFlatten(value.entries, prefix + key + ".");
      r := Update(flatdict, sub);
    } else {
      r := Put(flatdict, prefix + key, value);
    }
  }

  lemma FlattenFromStep(acc: Entries, items: Entries, i: nat, prefix: string)
    requires i < |items|
    ensures var key := items[i].0; var value := items[i].1;
      FlattenFrom(acc, items, i, prefix) ==
        if value.Dict? then FlattenFrom(Update(acc, FlattenFrom([], value.entries, 0, prefix + key + ".")), items, i + 1, prefix)
        else FlattenFrom(Put(acc, prefix + key, value), items, i + 1, prefix)
  {
  }

  /** `flatten_dict(d)`, recursion as intended; it computes `Flatten`. */
  method FlattenDict(d: Entries) returns (flat: Entries)
    ensures flat == Flatten(d)
  {
    flat := InnerFlatten(d, "");
  }

  ghost predicate NoMappingValues(e: Entries) {
    forall i :: 0 <= i < |e| ==> !e[i].1.Dict?
  }

  /** The result is a flat mapping: no value is a mapping, and (being built
      by assignment) no key occurs twice. */
  lemma {:induction false} FlattenIsFlat(acc: Entries, items: Entries, i: nat, prefix: string)
    requires i <= |items|
    requires Distinct(Keys(acc)) && NoMappingValues(acc)
    ensures Distinct(Keys(FlattenFrom(acc, items, i, prefix)))
    ensures NoMappingValues(FlattenFrom(acc, items, i, prefix))
    decreases Dict(items), |items| - i
  {
    if i < |items| {
      var key := items[i].0;
      var value := items[i].1;
      if value.Dict? {
        var sub := FlattenFrom([], value.entries, 0, prefix + key + ".");
        FlattenIsFlat([], value.entries, 0, prefix + key + ".");
        UpdateFlat(acc, sub);
        UpdateKeys(acc, sub);
        FlattenIsFlat(Update(acc, sub), items, i + 1, prefix);
      } else {
        PutFlat(acc, prefix + key, value);
        PutDistinct(acc, prefix + key, value);
        FlattenIsFlat(Put(acc, prefix + key, value), items, i + 1, prefix);
      }
    }
  }

  lemma {:induction false} PutFlat(d: Entries, k: string, v: Value)
    requires NoMappingValues(d) && !v.Dict?
    ensures NoMappingValues(Put(d, k, v))
  {
    if d != [] && d[0].0 != k {
      PutFlat(d[1..], k, v);
    }
  }

  lemma {:induction false} UpdateFlat(d: Entries, e: Entries)
    requires NoMappingValues(d) && NoMappingValues(e)
    ensures NoMappingValues(Update(d, e))
    decreases |e|
  {
    if e != [] {
      PutFlat(d, e[0].0, e[0].1);
      UpdateFlat(Put(d, e[0].0, e[0].1), e[1..]);
    }
  }

  /** Flattening a mapping none of whose values is a mapping gives back the
      same entries. */
  lemma {:induction false} FlattenFlatIsIdentity(acc: Entries, items: Entries, i: nat)
    requires i <= |items|
    requires NoMappingValues(items) && Distinct(Keys(items))
    requires forall j :: i <= j < |items| ==> items[j].0 !in Keys(acc)
    ensures FlattenFrom(acc, items, i, "") == acc + items[i..]
    decreases |items| - i
  {
    if i < |items| {
      var key := items[i].0;
      assert "" + key == key;
      PutFresh(acc, key, items[i].1);
      var acc' := acc + [items[i]];
      KeysConcat(acc, [items[i]]);
      forall j | i + 1 <= j < |items| ensures items[j].0 != key {
        assert Keys(items)[i] != Keys(items)[j];
      }
      FlattenFlatIsIdentity(acc', items, i + 1);
      assert items[i..] == [items[i]] + items[i + 1..];
      SeqAssoc(acc, [items[i]], items[i + 1..]);
    }
  }

  /** Idempotence: a flat mapping flattens to itself, so flattening twice is
      flattening once. */
  lemma FlattenIdempotent(d: Entries)
    ensures NoMappingValues(d) && Distinct(Keys(d)) ==> Flatten(d) == d
    ensures Flatten(Flatten(d)) == Flatten(d)
  {
    if NoMappingValues(d) && Distinct(Keys(d)) {
      FlattenFlatIsIdentity([], d, 0);
      assert d[0..] == d;
    }
    FlattenIsFlat([], d, 0, "");
    FlattenFlatIsIdentity([], Flatten(d), 0);
    assert Flatten(d)[0..] == Flatten(d);
  }

  /** As written, `flatten_dict` raises TypeError on every input holding a
      mapping value, and otherwise agrees with the intended definition. */
  lemma {:induction false} FlattenAsWrittenFails(acc: Entries, items: Entries, i: nat, prefix: string)
    requires i <= |items|
    ensures (exists j :: i <= j < |items| && items[j].1.Dict?)
              ==> FlattenFromAsWritten(acc, items, i, prefix) == Err(TypeError)
    ensures (forall j :: i <= j < |items| ==> !items[j].1.Dict?)
              ==> FlattenFromAsWritten(acc, items, i, prefix) == Ok(FlattenFrom(acc, items, i, prefix))
    decreases |items| - i
  {
    if i < |items| {
      if items[i].1.Dict? {
        assert FlattenFromAsWritten(acc, items, i, prefix) == Err(TypeError);
      } else {
        var acc1 := Put(acc, prefix + items[i].0, items[i].1);
        assert FlattenFromAsWritten(acc, items, i, prefix) == FlattenFromAsWritten(acc1, items, i + 1, prefix);
        FlattenFromStep(acc, items, i, prefix);
        FlattenAsWrittenFails(acc1, items, i + 1, prefix);
      }
    }
  }

  /** The smallest input that shows the defect. */
  lemma FlattenAsWrittenCounterexample()
    ensures FlattenAsWritten([("a", Dict([("b", Int(1))]))]) == Err(TypeError)
    ensures Flatten([("a", Dict([("b", Int(1))]))]) == [("a.b", Int(1))]
  {
    var inner := [("b", Int(1))];
    assert "" + "a" + "." == "a." && "a." + "b" == "a.b";
    assert FlattenFrom([], inner, 1, "a.") == [];
    assert FlattenFrom([], inner, 0, "a.") == FlattenFrom([("a.b", Int(1))], inner, 1, "a.");
    var outer := [("a", Dict(inner))];
    assert Flatten(outer) == FlattenFrom(Update([], [("a.b", Int(1))]), outer, 1, "");
  }

  // ---------------------------------------------------------------------
  // A nested mapping flattens to its entries' flattenings under `key.`
  // ---------------------------------------------------------------------

  /** The entries of `d` with `q` put in front of every key. */
  function AddPrefix(q: string, d: Entries): Entries {
    if d == [] then [] else [(q + d[0].0, d[0].1)] + AddPrefix(q, d[1..])
  }

  lemma PrefixCancel(q: string, a: string, b: string)
    ensures q + a == q + b ==> a == b
  {
    assert (q + a)[|q|..] == a && (q + b)[|q|..] == b;
  }

  lemma {:induction false} PutPrefix(q: string, d: Entries, k: string, v: Value)
    ensures Put(AddPrefix(q, d), q + k, v) == AddPrefix(q, Put(d, k, v))
  {
    if d != [] {
      assert AddPrefix(q, d)[0] == (q + d[0].0, d[0].1);
      assert AddPrefix(q, d)[1..] == AddPrefix(q, d[1..]);
      PrefixCancel(q, d[0].0, k);
      if d[0].0 != k {
        PutPrefix(q, d[1..], k, v);
      }
    }
  }

  lemma {:induction false} UpdatePrefix(q: string, d: Entries, e: Entries)
    ensures Update(AddPrefix(q, d), AddPrefix(q, e)) == AddPrefix(q, Update(d, e))
    decreases |e|
  {
    if e != [] {
      var pe := AddPrefix(q, e);
      assert pe[0] == (q + e[0].0, e[0].1) && pe[1..] == AddPrefix(q, e[1..]);
      PutPrefix(q, d, e[0].0, e[0].1);
      UpdatePrefix(q, Put(d, e[0].0, e[0].1), e[1..]);
    }
  }

  /** Flattening under the prefix `q + p` is flattening under `p` and then
      putting `q` in front of every key. */
  lemma {:induction false} FlattenPrefix(q: string, acc: Entries, items: Entries, i: nat, p: string)
    requires i <= |items|
    ensures FlattenFrom(AddPrefix(q, acc), items, i, q + p) == AddPrefix(q, FlattenFrom(acc, items, i, p))
    decreases Dict(items), |items| - i
  {
    if i < |items| {
      var key := items[i].0;
      var value := items[i].1;
      if value.Dict? {
        assert (q + p) + key + "." == q + (p + key + ".");
        assert AddPrefix(q, []) == [];
        FlattenPrefix(q, [], value.entries, 0, p + key + ".");
        var sub := FlattenFrom([], value.entries, 0, p + key + ".");
        UpdatePrefix(q, acc, sub);
        FlattenPrefix(q, Update(acc, sub), items, i + 1, p);
      } else {
        assert (q + p) + key == q + (p + key);
        PutPrefix(q, acc, p + key, value);
        FlattenPrefix(q, Put(acc, p + key, value), items, i + 1, p);
      }
    }
  }

  /** What the recursive call contributes for a mapping value under `key`:
      the value's own flattening with `key.` in front of every key. */
  lemma FlattenNested(key: string, sub: Entries)
    ensures FlattenFrom([], sub, 0, key + ".") == AddPrefix(key + ".", Flatten(sub))
  {
    assert (key + ".") + "" == key + ".";
    assert AddPrefix(key + ".", []) == [];
    FlattenPrefix(key + ".", [], sub, 0, "");
  }
}
