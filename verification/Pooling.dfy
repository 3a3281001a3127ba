/** The items of a list of containers, pooled in order: the volumes of a list of presets,
    the requested-from entries of a list of namespace mappings. */
module Pooling {
  /** Each element contributes its items, in list order. */
  function Pool<P, T>(items: P -> seq<T>, list: seq<P>): seq<T>
  {
    if list == [] then []
    else Pool(items, list[..|list| - 1]) + items(list[|list| - 1])
  }

  lemma PoolStep<P, T>(items: P -> seq<T>, list: seq<P>, i: nat)
    requires i < |list|
    ensures Pool(items, list[..i + 1]) == Pool(items, list[..i]) + items(list[i])
  {
    assert list[..i + 1][..i] == list[..i];
  }

  lemma PoolOfOne<P, T>(items: P -> seq<T>, p: P)
    ensures Pool(items, [p]) == items(p)
  {
    assert Pool(items, [p]) == [] + items(p);
  }

  lemma AllButLast<P>(a: seq<P>, b: seq<P>)
    requires b != []
    ensures (a + b)[..|a + b| - 1] == a + b[..|b| - 1]
    ensures (a + b)[|a + b| - 1] == b[|b| - 1]
  {
  }

  lemma {:induction false} PoolConcat<P, T>(items: P -> seq<T>, a: seq<P>, b: seq<P>)
    ensures Pool(items, a + b) == Pool(items, a) + Pool(items, b)
  {
    if b == [] {
      assert a + b == a;
    } else {
      var rest := b[..|b| - 1];
      PoolConcat(items, a, rest);
      AllButLast(a, b);
      assert Pool(items, a + b) == (Pool(items, a) + Pool(items, rest)) + items(b[|b| - 1]);
    }
  }

  /** Taking one element out takes its items out. */
  lemma PoolWithout<P, T>(items: P -> seq<T>, list: seq<P>, i: nat)
    requires i < |list|
    ensures multiset(Pool(items, list))
            == multiset(Pool(items, list[..i] + list[i + 1..])) + multiset(items(list[i]))
  {
    var front, back := list[..i], list[i + 1..];
    SplitAfter(list, i);
    PoolConcat(items, list[..i + 1], back);
    PoolConcat(items, front, back);
    PoolStep(items, list, i);
    MiddleOut(Pool(items, front), items(list[i]), Pool(items, back));
  }

  lemma SplitAfter<P>(list: seq<P>, i: nat)
    requires i < |list|
    ensures list == list[..i + 1] + list[i + 1..]
  {
  }

  lemma MiddleOut<T>(a: seq<T>, b: seq<T>, c: seq<T>)
    ensures multiset(a + b + c) == multiset(a + c) + multiset(b)
  {
  }

  /** Reordering the elements only reorders the pooled items. */
  lemma {:induction false} PoolReordered<P, T>(items: P -> seq<T>, a: seq<P>, b: seq<P>)
    requires multiset(a) == multiset(b)
    ensures multiset(Pool(items, a)) == multiset(Pool(items, b))
  {
    if a == [] {
      assert |multiset(b)| == 0;
    } else {
      var rest, p := a[..|a| - 1], a[|a| - 1];
      assert a == rest + [p];
      assert p in multiset(b);
      var i :| 0 <= i < |b| && b[i] == p;
      PermutationWithout(rest, p, b, i);
      PoolReordered(items, rest, b[..i] + b[i + 1..]);
      PoolWithout(items, b, i);
    }
  }

  lemma PermutationWithout<T>(rest: seq<T>, p: T, b: seq<T>, i: nat)
    requires multiset(rest + [p]) == multiset(b)
    requires i < |b| && b[i] == p
    ensures multiset(rest) == multiset(b[..i] + b[i + 1..])
  {
    var front, back := b[..i], b[i + 1..];
    assert b == front + [p] + back;
    assert multiset(b) == multiset(front) + multiset{p} + multiset(back);
    assert multiset(rest + [p]) == multiset(rest) + multiset{p};
    assert multiset(rest) == multiset(b) - multiset{p};
  }
}
