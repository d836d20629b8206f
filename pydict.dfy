/** Python's `dict` as an ordered association list: a key keeps the position
    of its first insertion, assigning to an existing key replaces its value in
    place, and `update` assigns the other dictionary's entries one by one in
    their order. */
module PyDict {
  import opened Values

  function Keys<K, V>(d: seq<(K, V)>): (ks: seq<K>)
    ensures |ks| == |d|
  {
    seq(|d|, i requires 0 <= i < |d| => d[i].0)
  }

  lemma KeysCons<K, V>(d: seq<(K, V)>)
    requires d != []
    ensures Keys(d) == [d[0].0] + Keys(d[1..])
  {
  }

  lemma KeysTail<K, V>(d: seq<(K, V)>)
    requires d != []
    ensures Keys(d[1..]) == Keys(d)[1..]
  {
  }

  ghost predicate Distinct<T>(s: seq<T>) {
    forall i, j :: 0 <= i < j < |s| ==> s[i] != s[j]
  }

  /** `d.get(k)`: the value stored under `k`, if any. */
  function Get<V>(d: seq<(string, V)>, k: string): Option<V> {
    if d == [] then None
    else if d[0].0 == k then Some(d[0].1)
    else Get(d[1..], k)
  }

  /** `k in d` exactly when `d.get(k)` finds a value, and that value is
      stored under `k`. */
  lemma {:induction false} GetKeys<V>(d: seq<(string, V)>, k: string)
    ensures Get(d, k).Some? <==> k in Keys(d)
    ensures Get(d, k).Some? ==> (k, Get(d, k).value) in d
  {
    if d != [] {
      GetKeys(d[1..], k);
      KeysCons(d);
    }
  }

  /** `d[k] = v`. */
  function Put<V>(d: seq<(string, V)>, k: string, v: V): seq<(string, V)> {
    if d == [] then [(k, v)]
    else if d[0].0 == k then [(k, v)] + d[1..]
    else [d[0]] + Put(d[1..], k, v)
  }

  /** `d[k] = v` keeps the keys of `d` in place and appends `k` if new. */
  lemma {:induction false} PutKeys<V>(d: seq<(string, V)>, k: string, v: V)
    ensures Keys(Put(d, k, v)) == if k in Keys(d) then Keys(d) else Keys(d) + [k]
  {
    if d != [] {
      KeysCons(d);
      if d[0].0 == k {
        KeysConcat([(k, v)], d[1..]);
      } else {
        PutKeys(d[1..], k, v);
        KeysConcat([d[0]], Put(d[1..], k, v));
      }
    }
  }

  /** `d.update(e)`. */
  function Update<V>(d: seq<(string, V)>, e: seq<(string, V)>): seq<(string, V)>
    decreases |e|
  {
    if e == [] then d else Update(Put(d, e[0].0, e[0].1), e[1..])
  }

  /** The value of the last entry of `e` with key `k`: the one an in-order
      sequence of assignments leaves behind. */
  function GetLast<V>(e: seq<(string, V)>, k: string): Option<V> {
    if e == [] then None
    else match GetLast(e[1..], k)
      case Some(v) => Some(v)
      case None => if e[0].0 == k then Some(e[0].1) else None
  }

  /** `e` gives `k` a last value exactly when `k` is a key of `e`. */
  lemma {:induction false} GetLastKeys<V>(e: seq<(string, V)>, k: string)
    ensures GetLast(e, k).Some? <==> k in Keys(e)
  {
    if e != [] {
      GetLastKeys(e[1..], k);
      KeysCons(e);
    }
  }

  /** After `d[k] = v`, `k` holds `v` and every other key keeps its value. */
  lemma {:induction false} PutGet<V>(d: seq<(string, V)>, k: string, v: V, k': string)
    ensures Get(Put(d, k, v), k') == if k' == k then Some(v) else Get(d, k')
  {
    if d != [] && d[0].0 != k {
      PutGet(d[1..], k, v, k');
    }
  }

  lemma {:induction false} PutFresh<V>(d: seq<(string, V)>, k: string, v: V)
    requires k !in Keys(d)
    ensures Put(d, k, v) == d + [(k, v)]
  {
    if d != [] {
      var t := d[1..];
      KeysCons(d);
      PutFresh(t, k, v);
      assert [d[0]] + t == d;
    }
  }

  lemma {:induction false} PutPresent<V>(d: seq<(string, V)>, k: string, v: V)
    requires Get(d, k) == Some(v)
    ensures Put(d, k, v) == d
  {
    if d != [] && d[0].0 != k {
      PutPresent(d[1..], k, v);
    }
  }

  lemma {:induction false} PutPut<V>(d: seq<(string, V)>, k: string, v: V, w: V)
    ensures Put(Put(d, k, v), k, w) == Put(d, k, w)
  {
    if d != [] && d[0].0 != k {
      PutPut(d[1..], k, v, w);
    }
  }

  lemma PutDistinct<V>(d: seq<(string, V)>, k: string, v: V)
    requires Distinct(Keys(d))
    ensures Distinct(Keys(Put(d, k, v)))
  {
    PutKeys(d, k, v);
    if k !in Keys(d) {
      DistinctAppend(Keys(d), k);
    }
  }

  lemma DistinctAppend(ks: seq<string>, k: string)
    requires Distinct(ks) && k !in ks
    ensures Distinct(ks + [k])
  {
    var r := ks + [k];
    forall i, j | 0 <= i < j < |r| ensures r[i] != r[j] {
      assert r[i] == ks[i];
      if j == |ks| {
        assert r[j] == k;
      } else {
        assert r[j] == ks[j];
      }
    }
  }

  lemma {:induction false} UpdateKeys<V>(d: seq<(string, V)>, e: seq<(string, V)>)
    ensures forall k :: k in Keys(Update(d, e)) <==> k in Keys(d) || k in Keys(e)
    ensures Distinct(Keys(d)) ==> Distinct(Keys(Update(d, e)))
    decreases |e|
  {
    if e != [] {
      var d1 := Put(d, e[0].0, e[0].1);
      assert Update(d, e) == Update(d1, e[1..]);
      UpdateKeys(d1, e[1..]);
      PutKeys(d, e[0].0, e[0].1);
      if Distinct(Keys(d)) { PutDistinct(d, e[0].0, e[0].1); }
      KeysCons(e);
    }
  }

  /** After `d.update(e)`, a key of `e` holds the last value `e` gives it and
      every other key keeps its value in `d`. */
  lemma {:induction false} UpdateGet<V>(d: seq<(string, V)>, e: seq<(string, V)>, k: string)
    ensures Get(Update(d, e), k) == if k in Keys(e) then GetLast(e, k) else Get(d, k)
    decreases |e|
  {
    if e != [] {
      UpdateGet(Put(d, e[0].0, e[0].1), e[1..], k);
      PutGet(d, e[0].0, e[0].1, k);
      KeysCons(e);
      GetLastKeys(e[1..], k);
    }
  }

  /** Updating with entries whose keys are distinct and new appends them. */
  lemma {:induction false} UpdateFresh<V>(d: seq<(string, V)>, e: seq<(string, V)>)
    requires Distinct(Keys(e))
    requires forall k :: k in Keys(e) ==> k !in Keys(d)
    ensures Update(d, e) == d + e
    decreases |e|
  {
    if e != [] {
      var t := e[1..];
      var d1 := Put(d, e[0].0, e[0].1);
      assert Update(d, e) == Update(d1, t);
      DistinctTail(e);
      assert Keys(e)[0] == e[0].0;
      PutFresh(d, e[0].0, e[0].1);
      PutKeys(d, e[0].0, e[0].1);
      assert forall k :: k in Keys(t) ==> k !in Keys(d1);
      UpdateFresh(d1, t);
      AppendNext(d, e, 0);
      assert e[0..] == e;
    }
  }

  /** The keys after the first of a mapping with distinct keys are distinct,
      do not include the first key, and are keys of the mapping. */
  lemma DistinctTail<V>(e: seq<(string, V)>)
    requires Distinct(Keys(e)) && e != []
    ensures Distinct(Keys(e[1..]))
    ensures e[0].0 !in Keys(e[1..])
    ensures forall k :: k in Keys(e[1..]) ==> k in Keys(e)
  {
    KeysTail(e);
    forall k | k in Keys(e[1..]) ensures k != e[0].0 {
      var j :| 0 <= j < |Keys(e[1..])| && Keys(e[1..])[j] == k;
      assert Keys(e)[0] != Keys(e)[j + 1];
    }
  }

  lemma SliceCons<T>(s: seq<T>, i: nat)
    requires i < |s|
    ensures s[i..] == [s[i]] + s[i + 1..]
  {
  }

  /** In a sequence without repetitions, element `i` does not occur after
      position `i`. */
  lemma DistinctLater<T>(s: seq<T>, i: nat)
    requires Distinct(s) && i < |s|
    ensures s[i] !in s[i + 1..]
  {
    var tail := s[i + 1..];
    forall m | 0 <= m < |tail| ensures tail[m] != s[i] {
      assert tail[m] == s[i + 1 + m];
    }
  }

  lemma AppendNext<T>(acc: seq<T>, s: seq<T>, i: nat)
    requires i < |s|
    ensures acc + s[i..] == (acc + [s[i]]) + s[i + 1..]
  {
    assert s[i..] == [s[i]] + s[i + 1..];
  }

  lemma SeqAssoc<T>(a: seq<T>, b: seq<T>, c: seq<T>)
    ensures (a + b) + c == a + (b + c)
  {
  }

  lemma {:induction false} GetLastDistinct<V>(e: seq<(string, V)>, k: string)
    requires Distinct(Keys(e))
    ensures GetLast(e, k) == Get(e, k)
  {
    if e != [] {
      DistinctTail(e);
      GetKeys(e[1..], k);
      GetLastKeys(e[1..], k);
      GetLastDistinct(e[1..], k);
    }
  }

  lemma KeysConcat<K, V>(a: seq<(K, V)>, b: seq<(K, V)>)
    ensures Keys(a + b) == Keys(a) + Keys(b)
  {
  }

  lemma DistinctConcat<T>(a: seq<T>, b: seq<T>)
    requires Distinct(a + b)
    ensures Distinct(a) && Distinct(b)
    ensures forall x :: x in a ==> x !in b
  {
    forall i, j | 0 <= i < j < |a| ensures a[i] != a[j] {
      assert a[i] == (a + b)[i] && a[j] == (a + b)[j];
    }
    forall i, j | 0 <= i < j < |b| ensures b[i] != b[j] {
      assert b[i] == (a + b)[|a| + i] && b[j] == (a + b)[|a| + j];
    }
    forall x | x in a ensures x !in b {
      var i :| 0 <= i < |a| && a[i] == x;
      forall j | 0 <= j < |b| ensures b[j] != x {
        assert a[i] == (a + b)[i] && b[j] == (a + b)[|a| + j];
      }
    }
  }

  /** In a mapping whose keys are distinct, an entry is what `get` finds. */
  lemma {:induction false} GetDistinctIn<V>(e: seq<(string, V)>, k: string, v: V)
    requires Distinct(Keys(e)) && (k, v) in e
    ensures Get(e, k) == Some(v)
  {
    if e[0] != (k, v) {
      KeysTail(e);
      var j :| 0 <= j < |e| && e[j] == (k, v);
      assert j > 0 && e[1..][j - 1] == (k, v);
      assert Keys(e)[0] != Keys(e)[j];
      GetDistinctIn(e[1..], k, v);
    }
  }
}
