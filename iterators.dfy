/** `scouttwang.iterators`: an iterator with one element of lookahead, and
    counting what is left of an iterator. */
module Iterators {
  import opened Values

  /** An iterator over a fixed sequence of elements: each `next` hands out
      the element at the current position and moves past it. */
  class Cursor<T> {
    const elems: seq<T>
    var pos: nat

    ghost predicate Valid()
      reads this
    {
      pos <= |elems|
    }

    constructor (elems: seq<T>)
      ensures Valid() && this.elems == elems && pos == 0
    {
      this.elems := elems;
      pos := 0;
    }

    /** The elements still to come. */
    ghost function Remaining(): seq<T>
      reads this
      requires Valid()
    {
      elems[pos..]
    }

    /** `next(it)`: the next element, or StopIteration once exhausted. */
    method Next() returns (r: Result<T>)
      requires Valid()
      modifies this
      ensures Valid()
      ensures old(Remaining()) == [] ==> r == Err(StopIteration) && pos == old(pos)
      ensures old(Remaining()) != [] ==>
        r == Ok(old(Remaining())[0]) && pos == old(pos) + 1 && Remaining() == old(Remaining())[1..]
    {
      if pos == |elems| {
        return Err(StopIteration);
      }
      r := Ok(elems[pos]);
      pos := pos + 1;
    }
  }

  /** No element is Python's None. */
  ghost predicate NoneFree<T>(s: seq<Option<T>>) {
    forall i :: 0 <= i < |s| ==> s[i].Some?
  }

  /** What `peek` reports and `next` returns for a pending sequence of
      elements. */
  function First<E>(s: seq<E>): (r: Result<E>)
    ensures r.Ok? <==> s != []
    ensures r.Ok? ==> r.value == s[0]
    ensures r.Err? ==> r.error == StopIteration
  {
    if s == [] then Err(StopIteration) else Ok(s[0])
  }

  /** The pending sequence after `next`: its first element is gone. */
  function Rest<E>(s: seq<E>): (r: seq<E>)
    ensures s != [] ==> s == [s[0]] + r
    ensures s == [] ==> r == []
  {
    if s == [] then [] else s[1..]
  }

  /** `Peekable(it)`: the elements of `it` (each an `Option`, where None is
      Python's None) with one element of lookahead. The cache `v` holds the
      element `peek` took from `it`, and None when it is empty, so a cached
      element that is itself None reads as an empty cache. */
  class Peekable<T> {
    const it: Cursor<Option<T>>
    var v: Option<T>

    ghost predicate Valid()
      reads this, it
    {
      it.Valid()
    }

    constructor (it: Cursor<Option<T>>)
      requires it.Valid()
      ensures Valid() && this.it == it && v == None
    {
      this.it := it;
      v := None;
    }

    /** The elements still to be handed out, reading the cache as the code
        reads it. */
    ghost function Pending(): seq<Option<T>>
      reads this, it
      requires Valid()
    {
      (if v.Some? then [v] else []) + it.Remaining()
    }

    /** `peek()`: the cached element, else the next element of `it`, which
        is then cached. When no element is None, the pending elements do not
        change and the first of them is reported. */
    method Peek() returns (r: Result<Option<T>>)
      requires Valid()
      modifies this, it
      ensures Valid()
      ensures old(v).Some? ==> r == Ok(old(v)) && v == old(v) && it.pos == old(it.pos)
      ensures old(v).None? && old(it.Remaining()) == [] ==>
        r == Err(StopIteration) && v == None && it.pos == old(it.pos)
      ensures old(v).None? && old(it.Remaining()) != [] ==>
        r == Ok(old(it.Remaining())[0]) && v == old(it.Remaining())[0] && it.pos == old(it.pos) + 1
      ensures NoneFree(old(Pending())) ==> r == First(old(Pending())) && Pending() == old(Pending())
    {
      if v.None? {
        var n := it.Next();
        if n.Err? {
          return Err(n.error);
        }
        v := n.value;
      }
      r := Ok(v);
    }

    /** `__next__()`: empties the cache and returns what it held, else the
        next element of `it`. When no element is None, this is the first
        pending element, and it is no longer pending. */
    method Next() returns (r: Result<Option<T>>)
      requires Valid()
      modifies this, it
      ensures Valid() && v == None
      ensures old(v).Some? ==> r == Ok(old(v)) && it.pos == old(it.pos)
      ensures old(v).None? && old(it.Remaining()) == [] ==> r == Err(StopIteration) && it.pos == old(it.pos)
      ensures old(v).None? && old(it.Remaining()) != [] ==>
        r == Ok(old(it.Remaining())[0]) && it.pos == old(it.pos) + 1
      ensures NoneFree(old(Pending())) ==> r == First(old(Pending())) && Pending() == Rest(old(Pending()))
    {
      var w := v;
      v := None;
      if w.None? {
        var n := it.Next();
        if n.Err? {
          return Err(n.error);
        }
        w := n.value;
      }
      r := Ok(w);
    }
  }

  datatype Op = PeekOp | NextOp

  /** The number of `next` calls among `ops`. */
  function CountNext(ops: seq<Op>): (n: nat)
    ensures n <= |ops|
  {
    if ops == [] then 0
    else CountNext(ops[..|ops| - 1]) + (if ops[|ops| - 1] == NextOp then 1 else 0)
  }

  /** Calls `peek` and `next` on `p` in the order `ops` gives, stopping at
      the first StopIteration. When no element is None, whatever the
      interleaving, the `next` calls return the pending elements in order
      with none skipped or repeated, and they stop only once all are taken. */
  method Interleave<T>(p: Peekable<T>, ops: seq<Op>) returns (taken: seq<Option<T>>, stopped: bool)
    requires p.Valid() && NoneFree(p.Pending())
    modifies p, p.it
    ensures p.Valid()
    ensures old(p.Pending()) == taken + p.Pending()
    ensures !stopped ==> |taken| == CountNext(ops)
    ensures stopped ==> p.Pending() == [] && |taken| <= CountNext(ops)
  {
    taken := [];
    stopped := false;
    var i := 0;
    while i < |ops|
      invariant 0 <= i <= |ops|
      invariant p.Valid() && NoneFree(p.Pending())
      invariant old(p.Pending()) == taken + p.Pending()
      invariant |taken| == CountNext(ops[..i])
    {
      assert ops[..i + 1][..i] == ops[..i];
      var t, stop := Apply(p, ops[i]);
      if stop {
        stopped := true;
        CountNextPrefix(ops, i);
        return;
      }
      taken := taken + t;
      i := i + 1;
    }
    assert ops[..i] == ops;
  }

  /** One call of `Interleave`: what the call took from the pending
      elements, and whether it raised StopIteration. */
  method Apply<T>(p: Peekable<T>, op: Op) returns (taken: seq<Option<T>>, stopped: bool)
    requires p.Valid() && NoneFree(p.Pending())
    modifies p, p.it
    ensures p.Valid() && NoneFree(p.Pending())
    ensures old(p.Pending()) == taken + p.Pending()
    ensures !stopped ==> |taken| == if op == NextOp then 1 else 0
    ensures stopped ==> p.Pending() == [] && taken == []
  {
    var x;
    if op == PeekOp {
      x := p.Peek();
      taken := [];
    } else {
      x := p.Next();
      taken := if x.Ok? then [x.value] else [];
    }
    stopped := x.Err?;
  }

  lemma {:induction false} CountNextPrefix(ops: seq<Op>, i: nat)
    requires i <= |ops|
    ensures CountNext(ops[..i]) <= CountNext(ops)
    decreases |ops| - i
  {
    if i < |ops| {
      CountNextPrefix(ops, i + 1);
      assert ops[..i + 1][..i] == ops[..i];
    } else {
      assert ops[..i] == ops;
    }
  }

  /** `iterator_length(it)`: consumes `it` and returns how many elements it
      had left. */
  method IteratorLength<T>(it: Cursor<T>) returns (n: nat)
    requires it.Valid()
    modifies it
    ensures it.Valid() && it.Remaining() == []
    ensures n == |old(it.Remaining())|
  {
    n := 0;
    while true
      invariant it.Valid()
      invariant n + |it.Remaining()| == |old(it.Remaining())|
      decreases |it.Remaining()|
    {
      var x := it.Next();
      if x.Err? {
        return;
      }
      n := n + 1;
    }
  }

  // ---------------------------------------------------------------------
  // The None sentinel
  // ---------------------------------------------------------------------

  /** With the elements None, 1: `peek` reports None, yet the following
      `next` returns 1 and the one after that raises StopIteration, so the
      peeked None is never returned by `next`. */
  method PeekedNoneIsSkipped() returns (peeked: Result<Option<int>>, first: Result<Option<int>>, second: Result<Option<int>>)
    ensures peeked == Ok(None) && first == Ok(Some(1)) && second == Err(StopIteration)
  {
    var c := new Cursor<Option<int>>([None, Some(1)]);
    var p := new Peekable(c);
    peeked := p.Peek();
    first := p.Next();
    second := p.Next();
  }

  /** Peekable with the cache as an `Option` of an element, so that an
      element that is None can be cached: elements come out in order with
      none skipped or repeated, whatever they are. */
  class CorrectedPeekable<T> {
    const it: Cursor<Option<T>>
    var cache: Option<Option<T>>

    ghost predicate Valid()
      reads this, it
    {
      it.Valid()
    }

    constructor (it: Cursor<Option<T>>)
      requires it.Valid()
      ensures Valid() && this.it == it && cache == None
    {
      this.it := it;
      cache := None;
    }

    ghost function Pending(): seq<Option<T>>
      reads this, it
      requires Valid()
    {
      (if cache.Some? then [cache.value] else []) + it.Remaining()
    }

    method Peek() returns (r: Result<Option<T>>)
      requires Valid()
      modifies this, it
      ensures Valid()
      ensures r == First(old(Pending())) && Pending() == old(Pending())
      ensures old(cache).Some? ==> cache == old(cache) && it.pos == old(it.pos)
    {
      if cache.None? {
        var n := it.Next();
        if n.Err? {
          return Err(n.error);
        }
        cache := Some(n.value);
      }
      r := Ok(cache.value);
    }

    method Next() returns (r: Result<Option<T>>)
      requires Valid()
      modifies this, it
      ensures Valid() && cache == None
      ensures r == First(old(Pending())) && Pending() == Rest(old(Pending()))
    {
      var w := cache;
      cache := None;
      if w.None? {
        var n := it.Next();
        if n.Err? {
          return Err(n.error);
        }
        w := Some(n.value);
      }
      r := Ok(w.value);
    }
  }

  /** With the same elements None, 1, the corrected Peekable's `next`
      returns the peeked None, then 1. */
  method CorrectedKeepsNone() returns (peeked: Result<Option<int>>, first: Result<Option<int>>, second: Result<Option<int>>)
    ensures peeked == Ok(None) && first == Ok(None) && second == Ok(Some(1))
  {
    var c := new Cursor<Option<int>>([None, Some(1)]);
    var p := new CorrectedPeekable(c);
    peeked := p.Peek();
    first := p.Next();
    second := p.Next();
  }
}
