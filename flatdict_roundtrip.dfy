/** `flatdict_to_hierarchical` undoes `flatten_dict`: the leaves of a nested
    mapping, the flat entries flattening makes of them, and the mapping that
    setting them one by one rebuilds. */
module FlatDictRoundTrip {
  import opened Values
  import opened PyDict
  import opened FlatDict

  /** `ls` with `k` put in front of every path. */
  function Under(k: string, ls: seq<(Path, Value)>): (r: seq<(Path, Value)>)
    ensures |r| == |ls|
  {
    seq(|ls|, j requires 0 <= j < |ls| => ([k] + ls[j].0, ls[j].1))
  }

  /** The leaves of a nested mapping from entry `i` on, in the order
      `_inner_flatten` visits them: each non-mapping value with the path of
      keys that leads to it. */
  function LeavesFrom(items: Entries, i: nat): (ls: seq<(Path, Value)>)
    requires i <= |items|
    ensures PathsNonEmpty(ls)
    decreases Dict(items), |items| - i, 1
  {
    if i == |items| then [] else Group(items, i) + LeavesFrom(items, i + 1)
  }

  /** The leaves entry `i` contributes: itself, or the leaves of the mapping
      it holds under its key. */
  function Group(items: Entries, i: nat): (g: seq<(Path, Value)>)
    requires i < |items|
    ensures PathsNonEmpty(g)
    decreases Dict(items), |items| - i, 0
  {
    if items[i].1.Dict? then Under(items[i].0, LeavesFrom(items[i].1.entries, 0))
    else [([items[i].0], items[i].1)]
  }

  /** The flat entries for `ls` under prefix `p`: paths dot-joined. */
  function JoinKeys(p: string, ls: seq<(Path, Value)>): (r: Entries)
    requires PathsNonEmpty(ls)
    ensures |r| == |ls|
  {
    seq(|ls|, j requires 0 <= j < |ls| => (p + Join(ls[j].0), ls[j].1))
  }

  ghost predicate AllSegments(ls: seq<(Path, Value)>) {
    forall j :: 0 <= j < |ls| ==> Segments(ls[j].0)
  }

  ghost predicate PathsDistinct(ls: seq<(Path, Value)>) {
    forall i, j :: 0 <= i < j < |ls| ==> ls[i].0 != ls[j].0
  }

  ghost predicate HeadsIn(ls: seq<(Path, Value)>, ks: seq<string>) {
    forall j :: 0 <= j < |ls| ==> |ls[j].0| >= 1 && ls[j].0[0] in ks
  }

  /** A nested mapping that flattening can represent: at every level the keys
      are distinct and contain no dot. */
  ghost predicate Tree(items: Entries)
    decreases Dict(items)
  {
    Distinct(Keys(items)) &&
    forall j :: 0 <= j < |items| ==>
      DotFree(items[j].0) && (items[j].1.Dict? ==> Tree(items[j].1.entries))
  }

  /** No mapping, at any depth, is empty (an empty one leaves no flat key). */
  ghost predicate NoEmptyMaps(items: Entries)
    decreases Dict(items)
  {
    forall j :: 0 <= j < |items| ==>
      items[j].1.Dict? ==> |items[j].1.entries| >= 1 && NoEmptyMaps(items[j].1.entries)
  }

  lemma UnderShape(k: string, ls: seq<(Path, Value)>)
    requires DotFree(k) && AllSegments(ls) && PathsDistinct(ls)
    ensures AllSegments(Under(k, ls)) && PathsDistinct(Under(k, ls))
    ensures forall j :: 0 <= j < |ls| ==> Under(k, ls)[j].0[0] == k
  {
    var u := Under(k, ls);
    forall i, j | 0 <= i < j < |ls| ensures u[i].0 != u[j].0 {
      assert u[i].0[1..] == ls[i].0 && u[j].0[1..] == ls[j].0;
    }
  }

  lemma ConcatShape(a: seq<(Path, Value)>, b: seq<(Path, Value)>, k: string, ks: seq<string>)
    requires AllSegments(a) && AllSegments(b) && PathsDistinct(a) && PathsDistinct(b)
    requires forall j :: 0 <= j < |a| ==> |a[j].0| >= 1 && a[j].0[0] == k
    requires HeadsIn(b, ks) && k !in ks
    ensures AllSegments(a + b) && PathsDistinct(a + b) && HeadsIn(a + b, [k] + ks)
  {
    var c := a + b;
    forall j | 0 <= j < |c| ensures Segments(c[j].0) && c[j].0[0] in [k] + ks {
      if j < |a| { assert c[j] == a[j]; } else { assert c[j] == b[j - |a|]; }
    }
    forall i, j | 0 <= i < j < |c| ensures c[i].0 != c[j].0 {
      if j < |a| {
        assert c[i] == a[i] && c[j] == a[j];
      } else if i >= |a| {
        assert c[i] == b[i - |a|] && c[j] == b[j - |a|];
      } else {
        assert c[i] == a[i] && c[j] == b[j - |a|];
        assert c[j].0[0] in ks;
      }
    }
  }

  /** The leaves of a tree have dot-free, pairwise different paths, each
      starting with a key of the entries it came from. */
  lemma {:induction false} LeavesShape(items: Entries, i: nat)
    requires Tree(items) && i <= |items|
    ensures AllSegments(LeavesFrom(items, i)) && PathsDistinct(LeavesFrom(items, i))
    ensures HeadsIn(LeavesFrom(items, i), Keys(items)[i..])
    decreases Dict(items), |items| - i, 1
  {
    if i < |items| {
      GroupShape(items, i);
      LeavesShape(items, i + 1);
      LaterKeys(items, i);
      LeavesFromStep(items, i);
      ConcatShape(Group(items, i), LeavesFrom(items, i + 1), items[i].0, Keys(items)[i + 1..]);
    }
  }

  /** The leaves of entry `i` of a tree have dot-free, pairwise different
      paths, each starting with the entry's key. */
  lemma {:induction false} GroupShape(items: Entries, i: nat)
    requires Tree(items) && i < |items|
    ensures AllSegments(Group(items, i)) && PathsDistinct(Group(items, i))
    ensures forall j :: 0 <= j < |Group(items, i)| ==> |Group(items, i)[j].0| >= 1 && Group(items, i)[j].0[0] == items[i].0
    decreases Dict(items), |items| - i, 0
  {
    var key := items[i].0;
    assert DotFree(key);
    if items[i].1.Dict? {
      assert Tree(items[i].1.entries);
      LeavesShape(items[i].1.entries, 0);
      UnderShape(key, LeavesFrom(items[i].1.entries, 0));
    } else {
      var g := Group(items, i);
      assert g == [([key], items[i].1)];
      assert Segments([key]);
    }
  }

  /** In distinct keys, the keys from `i` on are key `i` followed by keys
      that differ from it. */
  lemma LaterKeys(items: Entries, i: nat)
    requires Distinct(Keys(items)) && i < |items|
    ensures Keys(items)[i..] == [items[i].0] + Keys(items)[i + 1..]
    ensures items[i].0 !in Keys(items)[i + 1..]
  {
    SliceCons(Keys(items), i);
    DistinctLater(Keys(items), i);
  }

  lemma JoinKeysConcat(p: string, a: seq<(Path, Value)>, b: seq<(Path, Value)>)
    requires PathsNonEmpty(a) && PathsNonEmpty(b)
    ensures PathsNonEmpty(a + b)
    ensures JoinKeys(p, a + b) == JoinKeys(p, a) + JoinKeys(p, b)
  {
    var c := a + b;
    forall j | 0 <= j < |c| ensures |c[j].0| >= 1 {
      if j < |a| { assert c[j] == a[j]; } else { assert c[j] == b[j - |a|]; }
    }
    forall j | 0 <= j < |c| ensures JoinKeys(p, c)[j] == (JoinKeys(p, a) + JoinKeys(p, b))[j] {
      if j < |a| { assert c[j] == a[j]; } else { assert c[j] == b[j - |a|]; }
    }
  }

  lemma JoinKeysUnder(p: string, k: string, ls: seq<(Path, Value)>)
    requires PathsNonEmpty(ls)
    ensures JoinKeys(p + k + ".", ls) == JoinKeys(p, Under(k, ls))
  {
    var u := Under(k, ls);
    forall j | 0 <= j < |ls| ensures JoinKeys(p + k + ".", ls)[j] == JoinKeys(p, u)[j] {
      assert u[j].0[1..] == ls[j].0;
      assert Join(u[j].0) == k + "." + Join(ls[j].0);
      assert (p + k + ".") + Join(ls[j].0) == p + (k + "." + Join(ls[j].0));
    }
  }

  lemma JoinKeysDistinct(p: string, ls: seq<(Path, Value)>)
    requires AllSegments(ls) && PathsDistinct(ls)
    ensures Distinct(Keys(JoinKeys(p, ls)))
  {
    var r := JoinKeys(p, ls);
    forall i, j | 0 <= i < j < |ls| ensures Keys(r)[i] != Keys(r)[j] {
      JoinInjective(ls[i].0, ls[j].0);
      PrefixCancel(p, Join(ls[i].0), Join(ls[j].0));
    }
  }

  /** Flattening a tree appends its leaves, paths dot-joined under the
      prefix. */
  lemma {:induction false} FlattenLeaves(acc: Entries, items: Entries, i: nat, p: string)
    requires Tree(items) && i <= |items|
    requires forall k :: k in Keys(JoinKeys(p, LeavesFrom(items, i))) ==> k !in Keys(acc)
    ensures FlattenFrom(acc, items, i, p) == acc + JoinKeys(p, LeavesFrom(items, i))
    decreases Dict(items), |items| - i, 1
  {
    if i < |items| {
      var g := Group(items, i);
      var rest := LeavesFrom(items, i + 1);
      LeavesShape(items, i);
      JoinKeysConcat(p, g, rest);
      JoinKeysDistinct(p, g + rest);
      var jg := JoinKeys(p, g);
      var jr := JoinKeys(p, rest);
      KeysConcat(jg, jr);
      DistinctConcat(Keys(jg), Keys(jr));
      FlattenGroup(acc, items, i, p);
      KeysConcat(acc, jg);
      FlattenLeaves(acc + jg, items, i + 1, p);
      SeqAssoc(acc, jg, jr);
    }
  }

  /** One step of the flattening loop appends the flat entries of the
      entry's leaves. */
  lemma {:induction false} FlattenGroup(acc: Entries, items: Entries, i: nat, p: string)
    requires Tree(items) && i < |items|
    requires Distinct(Keys(JoinKeys(p, Group(items, i))))
    requires forall k :: k in Keys(JoinKeys(p, Group(items, i))) ==> k !in Keys(acc)
    ensures FlattenFrom(acc, items, i, p) == FlattenFrom(acc + JoinKeys(p, Group(items, i)), items, i + 1, p)
    decreases Dict(items), |items| - i, 0
  {
    var key := items[i].0;
    var value := items[i].1;
    var jg := JoinKeys(p, Group(items, i));
    if value.Dict? {
      var ls := LeavesFrom(value.entries, 0);
      FlattenLeaves([], value.entries, 0, p + key + ".");
      JoinKeysUnder(p, key, ls);
      assert [] + jg == jg;
      UpdateFresh(acc, jg);
    } else {
      assert Join([key]) == key;
      assert jg == [(p + key, value)];
      assert Keys(jg)[0] == p + key;
      PutFresh(acc, p + key, value);
    }
  }

  lemma SplitJoinKeys(ls: seq<(Path, Value)>)
    requires AllSegments(ls)
    ensures SplitKeys(JoinKeys("", ls)) == ls
  {
    var r := JoinKeys("", ls);
    forall j | 0 <= j < |ls| ensures SplitKeys(r)[j] == ls[j] {
      assert "" + Join(ls[j].0) == Join(ls[j].0);
      SplitJoin(ls[j].0);
    }
  }

  lemma {:induction false} SetPathsConcat(d: Entries, a: seq<(Path, Value)>, b: seq<(Path, Value)>)
    requires PathsNonEmpty(a) && PathsNonEmpty(b) && SetPaths(d, a).Ok?
    ensures PathsNonEmpty(a + b)
    ensures SetPaths(d, a + b) == SetPaths(SetPaths(d, a).value, b)
    decreases |a|
  {
    JoinKeysConcat("", a, b);
    if a != [] {
      assert (a + b)[0] == a[0];
      assert (a + b)[1..] == a[1..] + b;
      var step := SetPath(d, a[0].0, a[0].1);
      assert step.Ok?;
      assert SetPaths(d, a) == SetPaths(step.value, a[1..]);
      assert SetPaths(d, a + b) == SetPaths(step.value, a[1..] + b);
      SetPathsConcat(step.value, a[1..], b);
    } else {
      assert a + b == b;
    }
  }

  /** Setting the leaves of a mapping below an existing mapping under `k`
      builds them inside it. */
  lemma {:induction false} NestExisting(acc: Entries, k: string, d: Entries, ls: seq<(Path, Value)>, s: Entries)
    requires Get(acc, k) == Some(Dict(d)) && PathsNonEmpty(ls) && SetPaths(d, ls) == Ok(s)
    ensures PathsNonEmpty(Under(k, ls))
    ensures SetPaths(acc, Under(k, ls)) == Ok(Put(acc, k, Dict(s)))
    decreases |ls|
  {
    var u := Under(k, ls);
    if ls == [] {
      PutPresent(acc, k, Dict(d));
    } else {
      assert u[0] == ([k] + ls[0].0, ls[0].1);
      assert u[1..] == Under(k, ls[1..]);
      var keys := [k] + ls[0].0;
      assert keys[0] == k && keys[1..] == ls[0].0;
      var d1 := SetPath(d, ls[0].0, ls[0].1).value;
      assert SetPath(acc, keys, ls[0].1) == Ok(Put(acc, k, Dict(d1)));
      var acc1 := Put(acc, k, Dict(d1));
      PutGet(acc, k, Dict(d1), k);
      NestExisting(acc1, k, d1, ls[1..], s);
      PutPut(acc, k, Dict(d1), Dict(s));
    }
  }

  /** Setting the leaves of a mapping under a new key `k` appends the mapping
      under `k`. */
  lemma Nest(acc: Entries, k: string, ls: seq<(Path, Value)>, s: Entries)
    requires k !in Keys(acc) && |ls| >= 1 && PathsNonEmpty(ls) && SetPaths([], ls) == Ok(s)
    ensures PathsNonEmpty(Under(k, ls))
    ensures SetPaths(acc, Under(k, ls)) == Ok(acc + [(k, Dict(s))])
  {
    var u := Under(k, ls);
    assert u[0] == ([k] + ls[0].0, ls[0].1);
    assert u[1..] == Under(k, ls[1..]);
    var keys := [k] + ls[0].0;
    assert keys[0] == k && keys[1..] == ls[0].0;
    GetKeys(acc, k);
    var d1 := SetPath([], ls[0].0, ls[0].1).value;
    assert SetPath(acc, keys, ls[0].1) == Ok(Put(acc, k, Dict(d1)));
    var acc1 := Put(acc, k, Dict(d1));
    PutGet(acc, k, Dict(d1), k);
    NestExisting(acc1, k, d1, ls[1..], s);
    PutPut(acc, k, Dict(d1), Dict(s));
    PutFresh(acc, k, Dict(s));
  }

  lemma {:induction false} LeavesNonEmpty(items: Entries, i: nat)
    requires NoEmptyMaps(items) && i < |items|
    ensures |LeavesFrom(items, i)| >= 1
    decreases Dict(items), |items| - i
  {
    if items[i].1.Dict? {
      LeavesNonEmpty(items[i].1.entries, 0);
    }
  }

  /** Setting the leaves of a tree, in order, rebuilds it entry by entry. */
  lemma {:induction false} SetPathsLeaves(acc: Entries, items: Entries, i: nat)
    requires Tree(items) && NoEmptyMaps(items) && i <= |items|
    requires forall j :: i <= j < |items| ==> items[j].0 !in Keys(acc)
    ensures SetPaths(acc, LeavesFrom(items, i)) == Ok(acc + items[i..])
    decreases Dict(items), |items| - i, 1
  {
    if i < |items| {
      var g := Group(items, i);
      var rest := LeavesFrom(items, i + 1);
      var acc1 := acc + [items[i]];
      LeavesFromStep(items, i);
      assert items[i].0 !in Keys(acc);
      SetPathsGroup(acc, items, i);
      assert SetPaths(acc, g) == Ok(acc1);
      SetPathsConcat(acc, g, rest);
      assert SetPaths(acc, LeavesFrom(items, i)) == SetPaths(acc1, rest);
      KeysFresh(acc, items, i);
      SetPathsLeaves(acc1, items, i + 1);
      assert SetPaths(acc1, rest) == Ok(acc1 + items[i + 1..]);
      AppendNext(acc, items, i);
    } else {
      assert acc + items[i..] == acc;
    }
  }

  lemma LeavesFromStep(items: Entries, i: nat)
    requires i < |items|
    ensures LeavesFrom(items, i) == Group(items, i) + LeavesFrom(items, i + 1)
  {
  }

  lemma KeysFresh(acc: Entries, items: Entries, i: nat)
    requires Distinct(Keys(items)) && i < |items|
    requires forall j :: i <= j < |items| ==> items[j].0 !in Keys(acc)
    ensures forall j :: i + 1 <= j < |items| ==> items[j].0 !in Keys(acc + [items[i]])
  {
    KeysConcat(acc, [items[i]]);
    forall j | i + 1 <= j < |items| ensures items[j].0 !in Keys(acc + [items[i]]) {
      assert Keys(items)[i] != Keys(items)[j];
    }
  }

  /** Setting the leaves of one entry appends that entry. */
  lemma {:induction false} SetPathsGroup(acc: Entries, items: Entries, i: nat)
    requires Tree(items) && NoEmptyMaps(items) && i < |items|
    requires items[i].0 !in Keys(acc)
    ensures SetPaths(acc, Group(items, i)) == Ok(acc + [items[i]])
    decreases Dict(items), |items| - i, 0
  {
    var key := items[i].0;
    var value := items[i].1;
    if value.Dict? {
      var ls := LeavesFrom(value.entries, 0);
      SetPathsLeaves([], value.entries, 0);
      assert [] + value.entries[0..] == value.entries;
      LeavesNonEmpty(value.entries, 0);
      Nest(acc, key, ls, value.entries);
    } else {
      PutFresh(acc, key, value);
    }
  }

  /** Round trip: a tree with no empty mapping, flattened and then rebuilt,
      is the same mapping, order of keys included. */
  lemma RoundTrip(d: Entries)
    requires Tree(d) && NoEmptyMaps(d)
    ensures Unflatten(Flatten(d)) == Ok(d)
  {
    var ls := LeavesFrom(d, 0);
    FlattenLeaves([], d, 0, "");
    assert Flatten(d) == JoinKeys("", ls);
    LeavesShape(d, 0);
    SplitJoinKeys(ls);
    SetPathsLeaves([], d, 0);
    assert [] + d[0..] == d;
  }
}
