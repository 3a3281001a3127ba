/** The merge of a list with injected items, one entry per key.

    Volumes, environment variables and volume mounts are all merged this way. The
    definitions here know no lookup map beyond "the last entry with this key"; the
    methods in `PodMerge` keep real maps and are proved against them. */
module KeyedMerge {
  import opened Results

  /** The lookup map of a list: the last entry with a key wins. */
  function Index<T>(key: T -> string, s: seq<T>): (m: map<string, T>)
    ensures forall k :: k in m ==> m[k] in s && key(m[k]) == k
  {
    if s == [] then map[]
    else
      var m := Index(key, s[..|s| - 1]);
      m[key(s[|s| - 1]) := s[|s| - 1]]
  }

  /** The merged list: an item is appended when its key is not in the list yet. */
  function Merged<T>(key: T -> string, orig: seq<T>, items: seq<T>): (m: seq<T>)
    ensures orig <= m
  {
    if items == [] then orig
    else
      var m := Merged(key, orig, items[..|items| - 1]);
      var v := items[|items| - 1];
      if key(v) in Index(key, m) then m else m + [v]
  }

  /** An item conflicts when the map holds a different entry under its key. */
  predicate Clash<T(==)>(key: T -> string, held: map<string, T>, v: T)
  {
    key(v) in held && held[key(v)] != v
  }

  /** The items reported as conflicts, in order; a conflict does not stop the merge. */
  function Conflicts<T(==)>(key: T -> string, orig: seq<T>, items: seq<T>): seq<T>
  {
    if items == [] then []
    else
      var rest := items[..|items| - 1];
      var errs := Conflicts(key, orig, rest);
      var v := items[|items| - 1];
      if Clash(key, Index(key, Merged(key, orig, rest)), v) then errs + [v] else errs
  }

  function MergeResult<T(==)>(key: T -> string, orig: seq<T>, items: seq<T>): Result<seq<T>, seq<T>>
  {
    var errs := Conflicts(key, orig, items);
    if errs == [] then Ok(Merged(key, orig, items)) else Err(errs)
  }

  /** When a merge is meant to succeed: each item equals the last original entry of
      its key, if there is one, and items that share a key are equal. */
  ghost predicate Compatible<T>(key: T -> string, orig: seq<T>, items: seq<T>)
  {
    && (forall v :: v in items && key(v) in Index(key, orig) ==> Index(key, orig)[key(v)] == v)
    && (forall v, w :: v in items && w in items && key(v) == key(w) ==> v == w)
  }

  ghost function KeySet<T>(key: T -> string, s: seq<T>): set<string>
  {
    set v | v in s :: key(v)
  }

  ghost predicate DistinctKeys<T>(key: T -> string, s: seq<T>)
  {
    forall i, j :: 0 <= i < j < |s| ==> key(s[i]) != key(s[j])
  }

  // ---------- steps ----------

  lemma Snoc<T>(s: seq<T>, v: T)
    ensures (s + [v])[..|s + [v]| - 1] == s
  {
  }

  lemma TakeSnoc<T>(s: seq<T>, t: seq<T>, j: nat)
    requires j < |t|
    ensures s + t[..j + 1] == (s + t[..j]) + [t[j]]
  {
  }

  lemma TakeAll<T>(s: seq<T>)
    ensures s[..|s|] == s
  {
  }

  lemma SplitSnoc<T>(a: seq<T>, b: seq<T>)
    requires b != []
    ensures a + b == (a + b[..|b| - 1]) + [b[|b| - 1]]
  {
  }

  lemma IndexSnoc<T>(key: T -> string, s: seq<T>, v: T)
    ensures Index(key, s + [v]) == Index(key, s)[key(v) := v]
  {
    Snoc(s, v);
  }

  lemma {:induction false} Indexed<T>(key: T -> string, s: seq<T>, v: T)
    requires v in s
    ensures key(v) in Index(key, s)
  {
    var rest := s[..|s| - 1];
    if v != s[|s| - 1] {
      assert s == rest + [s[|s| - 1]];
      Indexed(key, rest, v);
    }
  }

  lemma IndexKeys<T>(key: T -> string, s: seq<T>)
    ensures Index(key, s).Keys == KeySet(key, s)
  {
    forall v | v in s { Indexed(key, s, v); }
  }

  lemma IndexStep<T>(key: T -> string, s: seq<T>, i: nat)
    requires i < |s|
    ensures Index(key, s[..i + 1]) == Index(key, s[..i])[key(s[i]) := s[i]]
  {
    assert s[..i + 1][..i] == s[..i];
  }

  lemma MergedSnoc<T>(key: T -> string, orig: seq<T>, items: seq<T>, v: T)
    ensures var m := Merged(key, orig, items);
            Merged(key, orig, items + [v]) == if key(v) in Index(key, m) then m else m + [v]
  {
    Snoc(items, v);
  }

  lemma ConflictsSnoc<T>(key: T -> string, orig: seq<T>, items: seq<T>, v: T)
    ensures var errs := Conflicts(key, orig, items);
            Conflicts(key, orig, items + [v])
            == if Clash(key, Index(key, Merged(key, orig, items)), v) then errs + [v] else errs
  {
    Snoc(items, v);
  }

  // ---------- who holds a key ----------

  /** The map entry of a key is the entry at its last position in the list. */
  lemma {:induction false} IndexIsLast<T>(key: T -> string, s: seq<T>, i: nat)
    requires i < |s|
    requires forall j :: i < j < |s| ==> key(s[j]) != key(s[i])
    ensures key(s[i]) in Index(key, s) && Index(key, s)[key(s[i])] == s[i]
  {
    if i < |s| - 1 {
      var t := s[..|s| - 1];
      assert t[i] == s[i];
      IndexIsLast(key, t, i);
    }
  }

  lemma {:induction false} OriginalHolder<T>(key: T -> string, orig: seq<T>, items: seq<T>, k: string)
    requires k in Index(key, orig)
    ensures k in Index(key, Merged(key, orig, items))
    ensures Index(key, Merged(key, orig, items))[k] == Index(key, orig)[k]
  {
    if items != [] {
      var rest, v := items[..|items| - 1], items[|items| - 1];
      OriginalHolder(key, orig, rest, k);
      IndexSnoc(key, Merged(key, orig, rest), v);
    }
  }

  /** No key is lost and none is invented. */
  lemma {:induction false} MergedKeys<T>(key: T -> string, orig: seq<T>, items: seq<T>)
    ensures forall v :: v in items ==> key(v) in Index(key, Merged(key, orig, items))
    ensures forall v :: v in Merged(key, orig, items) ==> v in orig || v in items
  {
    if items != [] {
      var rest, v := items[..|items| - 1], items[|items| - 1];
      var m := Merged(key, orig, rest);
      MergedKeys(key, orig, rest);
      IndexSnoc(key, m, v);
      assert items == rest + [v];
    }
  }

  ghost predicate NoneHas<T>(key: T -> string, s: seq<T>, k: string)
  {
    forall v :: v in s ==> key(v) != k
  }

  /** A key the original list lacks is held by an injected item. */
  lemma HeldByItem<T>(key: T -> string, orig: seq<T>, items: seq<T>, k: string)
    requires k !in Index(key, orig) && k in Index(key, Merged(key, orig, items))
    ensures var w := Index(key, Merged(key, orig, items))[k]; w in items && key(w) == k
  {
    MergedKeys(key, orig, items);
    var w := Index(key, Merged(key, orig, items))[k];
    if w in orig {
      Indexed(key, orig, w);
    }
  }

  lemma NewKeyIsHeld<T>(key: T -> string, orig: seq<T>, rest: seq<T>, v: T)
    requires key(v) !in Index(key, orig) && NoneHas(key, rest, key(v))
    ensures var m := Index(key, Merged(key, orig, rest + [v])); key(v) in m && m[key(v)] == v
  {
    if key(v) in Index(key, Merged(key, orig, rest)) {
      HeldByItem(key, orig, rest, key(v));
    }
    MergedSnoc(key, orig, rest, v);
    IndexSnoc(key, Merged(key, orig, rest), v);
  }

  lemma HolderStays<T>(key: T -> string, orig: seq<T>, rest: seq<T>, v: T, k: string)
    requires k in Index(key, Merged(key, orig, rest))
    ensures var m := Index(key, Merged(key, orig, rest + [v]));
            k in m && m[k] == Index(key, Merged(key, orig, rest))[k]
  {
    MergedSnoc(key, orig, rest, v);
    IndexSnoc(key, Merged(key, orig, rest), v);
  }

  /** A key the original list lacks is held by the first item that brings it. */
  lemma {:induction false} FirstItemHolds<T>(key: T -> string, orig: seq<T>, items: seq<T>, i: nat)
    requires i < |items|
    requires key(items[i]) !in Index(key, orig) && NoneHas(key, items[..i], key(items[i]))
    ensures key(items[i]) in Index(key, Merged(key, orig, items))
    ensures Index(key, Merged(key, orig, items))[key(items[i])] == items[i]
  {
    var rest, v := items[..|items| - 1], items[|items| - 1];
    assert items == rest + [v];
    if i < |rest| {
      assert rest[..i] == items[..i];
      FirstItemHolds(key, orig, rest, i);
      HolderStays(key, orig, rest, v, key(rest[i]));
    } else {
      NewKeyIsHeld(key, orig, rest, v);
    }
  }

  lemma FirstWithKey<T>(key: T -> string, items: seq<T>, k: string) returns (i: nat)
    requires exists v :: v in items && key(v) == k
    ensures i < |items| && key(items[i]) == k && NoneHas(key, items[..i], k)
  {
    i := 0;
    while i < |items| && key(items[i]) != k
      invariant i <= |items| && NoneHas(key, items[..i], k)
    {
      i := i + 1;
    }
    assert items[..|items|] == items;
  }

  /** Under compatibility every item is what the merged list holds for its key. */
  lemma CompatibleHolds<T>(key: T -> string, orig: seq<T>, items: seq<T>, v: T)
    requires Compatible(key, orig, items) && v in items
    ensures key(v) in Index(key, Merged(key, orig, items))
    ensures Index(key, Merged(key, orig, items))[key(v)] == v
  {
    if key(v) in Index(key, orig) {
      OriginalHolder(key, orig, items, key(v));
    } else {
      var i := FirstWithKey(key, items, key(v));
      FirstItemHolds(key, orig, items, i);
      assert items[i] in items;
    }
  }

  // ---------- what is appended ----------

  /** The item is the first one with its key, and the original list has no such key. */
  ghost predicate FirstOfKey<T>(key: T -> string, orig: seq<T>, items: seq<T>, i: nat)
    requires i < |items|
  {
    NoneHas(key, orig, key(items[i])) && NoneHas(key, items[..i], key(items[i]))
  }

  /** The items, among the first `n`, that are the first of a fresh key, in order. */
  ghost function FirstOccurrences<T>(key: T -> string, orig: seq<T>, items: seq<T>, n: nat): seq<T>
    requires n <= |items|
  {
    if n == 0 then []
    else
      var rest := FirstOccurrences(key, orig, items, n - 1);
      if FirstOfKey(key, orig, items, n - 1) then rest + [items[n - 1]] else rest
  }

  lemma HeldIff<T>(key: T -> string, orig: seq<T>, items: seq<T>, k: string)
    ensures k in Index(key, Merged(key, orig, items)) <==> !NoneHas(key, orig, k) || !NoneHas(key, items, k)
  {
    MergedKeys(key, orig, items);
    var held := Index(key, Merged(key, orig, items));
    if v :| v in orig && key(v) == k {
      Indexed(key, orig, v);
      OriginalHolder(key, orig, items, k);
    }
    if k in held {
      assert held[k] in orig || held[k] in items;
    }
  }

  /** Merging is a filter: the original list, then the first occurrence of each fresh
      key, in the order offered. */
  lemma {:induction false} MergedIsFirstOccurrences<T>(key: T -> string, orig: seq<T>, items: seq<T>, n: nat)
    requires n <= |items|
    ensures Merged(key, orig, items[..n]) == orig + FirstOccurrences(key, orig, items, n)
  {
    if n > 0 {
      MergedIsFirstOccurrences(key, orig, items, n - 1);
      AppendedIff(key, orig, items, n - 1);
      Appended(orig, FirstOccurrences(key, orig, items, n - 1), items[n - 1]);
    }
  }

  lemma AppendedIff<T>(key: T -> string, orig: seq<T>, items: seq<T>, n: nat)
    requires n < |items|
    ensures var m := Merged(key, orig, items[..n]);
            Merged(key, orig, items[..n + 1]) == if FirstOfKey(key, orig, items, n) then m + [items[n]] else m
  {
    assert items[..n + 1] == items[..n] + [items[n]];
    MergedSnoc(key, orig, items[..n], items[n]);
    HeldIff(key, orig, items[..n], key(items[n]));
  }

  lemma Appended<T>(a: seq<T>, b: seq<T>, v: T)
    ensures a + (b + [v]) == (a + b) + [v]
  {
  }

  // ---------- the verdict ----------

  /** Carrying on after a conflict never changes the verdict: the reported list is
      empty exactly when the items are compatible with the original list. */
  lemma {:induction false} ConflictFree<T>(key: T -> string, orig: seq<T>, items: seq<T>)
    ensures Conflicts(key, orig, items) == [] <==> Compatible(key, orig, items)
  {
    if items != [] {
      var rest, v := items[..|items| - 1], items[|items| - 1];
      assert items == rest + [v];
      var m := Index(key, Merged(key, orig, rest));
      ConflictFree(key, orig, rest);
      if Compatible(key, orig, items) {
        assert Compatible(key, orig, rest);
        if key(v) in m && key(v) in Index(key, orig) {
          OriginalHolder(key, orig, rest, key(v));
        } else if key(v) in m {
          HeldByItem(key, orig, rest, key(v));
        }
      } else if Conflicts(key, orig, items) == [] {
        StillCompatible(key, orig, rest, v);
      }
    }
  }

  lemma StillCompatible<T>(key: T -> string, orig: seq<T>, items: seq<T>, v: T)
    requires Compatible(key, orig, items)
    requires var m := Index(key, Merged(key, orig, items)); key(v) in m ==> m[key(v)] == v
    ensures Compatible(key, orig, items + [v])
  {
    if key(v) in Index(key, orig) {
      OriginalHolder(key, orig, items, key(v));
    }
    forall w | w in items && key(w) == key(v)
      ensures w == v
    {
      CompatibleHolds(key, orig, items, w);
    }
  }

  // ---------- batch equals incremental ----------

  lemma {:induction false} MergedBatch<T>(key: T -> string, orig: seq<T>, a: seq<T>, b: seq<T>)
    ensures Merged(key, orig, a + b) == Merged(key, Merged(key, orig, a), b)
  {
    if b == [] {
      assert a + b == a;
    } else {
      var rest, v := b[..|b| - 1], b[|b| - 1];
      MergedBatch(key, orig, a, rest);
      SplitSnoc(a, b);
      MergedSnoc(key, orig, a + rest, v);
    }
  }

  lemma ConflictsBatchStep<T>(key: T -> string, orig: seq<T>, a: seq<T>, rest: seq<T>, v: T)
    requires Conflicts(key, orig, a + rest)
             == Conflicts(key, orig, a) + Conflicts(key, Merged(key, orig, a), rest)
    ensures Conflicts(key, orig, (a + rest) + [v])
            == Conflicts(key, orig, a) + Conflicts(key, Merged(key, orig, a), rest + [v])
  {
    MergedBatch(key, orig, a, rest);
    ConflictsSnoc(key, orig, a + rest, v);
    ConflictsSnoc(key, Merged(key, orig, a), rest, v);
  }

  lemma {:induction false} ConflictsBatch<T>(key: T -> string, orig: seq<T>, a: seq<T>, b: seq<T>)
    ensures Conflicts(key, orig, a + b) == Conflicts(key, orig, a) + Conflicts(key, Merged(key, orig, a), b)
  {
    if b == [] {
      assert a + b == a;
    } else {
      var rest, v := b[..|b| - 1], b[|b| - 1];
      assert b == rest + [v];
      SplitSnoc(a, b);
      ConflictsBatch(key, orig, a, rest);
      ConflictsBatchStep(key, orig, a, rest, v);
    }
  }

  lemma CompatibleBatch<T>(key: T -> string, orig: seq<T>, a: seq<T>, b: seq<T>)
    ensures Compatible(key, orig, a + b)
            <==> Compatible(key, orig, a) && Compatible(key, Merged(key, orig, a), b)
  {
    ConflictFree(key, orig, a + b);
    ConflictFree(key, orig, a);
    ConflictFree(key, Merged(key, orig, a), b);
    ConflictsBatch(key, orig, a, b);
  }

  /** A second merge of items whose keys are all present adds nothing. */
  lemma {:induction false} MergedNothingNew<T>(key: T -> string, orig: seq<T>, items: seq<T>)
    requires forall v :: v in items ==> key(v) in Index(key, orig)
    ensures Merged(key, orig, items) == orig
  {
    if items != [] {
      MergedNothingNew(key, orig, items[..|items| - 1]);
    }
  }

  lemma MergeTwice<T>(key: T -> string, orig: seq<T>, items: seq<T>)
    ensures var once := Merged(key, orig, items);
            && Merged(key, once, items) == once
            && (Compatible(key, orig, items) ==> Compatible(key, once, items))
  {
    MergedKeys(key, orig, items);
    MergedNothingNew(key, Merged(key, orig, items), items);
    if Compatible(key, orig, items) {
      forall v | v in items
        ensures Index(key, Merged(key, orig, items))[key(v)] == v
      {
        CompatibleHolds(key, orig, items, v);
      }
    }
  }

  // ---------- order and distinctness ----------

  /** How often a value occurs in the merged list does not depend on item order. */
  lemma {:induction false} MergedCount<T>(key: T -> string, orig: seq<T>, items: seq<T>, x: T)
    requires Compatible(key, orig, items)
    ensures multiset(Merged(key, orig, items))[x]
            == multiset(orig)[x] + if x in items && key(x) !in Index(key, orig) then 1 else 0
  {
    if items != [] {
      var rest, v := items[..|items| - 1], items[|items| - 1];
      assert items == rest + [v];
      assert Compatible(key, orig, rest);
      MergedCount(key, orig, rest, x);
      var m := Merged(key, orig, rest);
      if key(v) in Index(key, orig) {
        OriginalHolder(key, orig, rest, key(v));
      } else if key(v) in Index(key, m) {
        HeldByItem(key, orig, rest, key(v));
      } else {
        MergedKeys(key, orig, rest);
      }
    }
  }

  lemma SameMembers<T>(s: seq<T>, t: seq<T>)
    requires multiset(s) == multiset(t)
    ensures forall v :: v in s ==> v in t
  {
    forall v | v in s
      ensures v in t
    {
      assert v in multiset(t);
    }
  }

  lemma CompatibleAnyOrder<T>(key: T -> string, orig: seq<T>, items: seq<T>, items': seq<T>)
    requires multiset(items) == multiset(items')
    requires Compatible(key, orig, items)
    ensures Compatible(key, orig, items')
  {
    SameMembers(items', items);
  }

  ghost function Count<T>(s: seq<T>, x: T): nat { multiset(s)[x] }

  lemma SameCounts<T>(s: seq<T>, t: seq<T>)
    requires forall x :: Count(s, x) == Count(t, x)
    ensures multiset(s) == multiset(t)
  {
    forall x
      ensures multiset(s)[x] == multiset(t)[x]
    {
      assert Count(s, x) == Count(t, x);
    }
  }

  lemma SameSuffix<T>(orig: seq<T>, s: seq<T>, t: seq<T>)
    requires orig <= s && orig <= t && multiset(s) == multiset(t)
    ensures multiset(s[|orig|..]) == multiset(t[|orig|..])
  {
    assert s == orig + s[|orig|..] && t == orig + t[|orig|..];
    assert multiset(s) == multiset(orig) + multiset(s[|orig|..]);
    assert multiset(t) == multiset(orig) + multiset(t[|orig|..]);
    assert multiset(s[|orig|..]) == multiset(s) - multiset(orig);
    assert multiset(t[|orig|..]) == multiset(t) - multiset(orig);
  }

  lemma CountAnyOrder<T>(key: T -> string, orig: seq<T>, items: seq<T>, items': seq<T>, x: T)
    requires multiset(items) == multiset(items')
    requires Compatible(key, orig, items)
    ensures Count(Merged(key, orig, items), x) == Count(Merged(key, orig, items'), x)
  {
    CompatibleAnyOrder(key, orig, items, items');
    MergedCount(key, orig, items, x);
    MergedCount(key, orig, items', x);
    assert x in items <==> x in multiset(items);
    assert x in items' <==> x in multiset(items');
  }

  /** The order of the items changes neither the verdict nor, on success, which
      entries are appended: the appended part is only permuted. */
  lemma OrderIndependent<T>(key: T -> string, orig: seq<T>, items: seq<T>, items': seq<T>)
    requires multiset(items) == multiset(items')
    ensures Compatible(key, orig, items) <==> Compatible(key, orig, items')
    ensures Compatible(key, orig, items)
            ==> multiset(Merged(key, orig, items)[|orig|..]) == multiset(Merged(key, orig, items')[|orig|..])
  {
    if Compatible(key, orig, items) {
      CompatibleAnyOrder(key, orig, items, items');
      var m, m' := Merged(key, orig, items), Merged(key, orig, items');
      forall x
        ensures Count(m, x) == Count(m', x)
      {
        CountAnyOrder(key, orig, items, items', x);
      }
      SameCounts(m, m');
      SameSuffix(orig, m, m');
    } else if Compatible(key, orig, items') {
      CompatibleAnyOrder(key, orig, items', items);
    }
  }

  /** From position `n` on, every entry has a key that no earlier entry has. */
  ghost predicate FreshFrom<T>(key: T -> string, s: seq<T>, n: nat)
  {
    forall i, j :: 0 <= i < j < |s| && n <= j ==> key(s[i]) != key(s[j])
  }

  lemma FreshSnoc<T>(key: T -> string, s: seq<T>, n: nat, v: T)
    requires FreshFrom(key, s, n) && key(v) !in Index(key, s)
    ensures FreshFrom(key, s + [v], n)
  {
    forall i | 0 <= i < |s|
      ensures key(s[i]) != key(v)
    {
      Indexed(key, s, s[i]);
    }
  }

  lemma {:induction false} InjectedKeysAreFresh<T>(key: T -> string, orig: seq<T>, items: seq<T>)
    ensures FreshFrom(key, Merged(key, orig, items), |orig|)
  {
    if items != [] {
      var rest, v := items[..|items| - 1], items[|items| - 1];
      InjectedKeysAreFresh(key, orig, rest);
      if key(v) !in Index(key, Merged(key, orig, rest)) {
        FreshSnoc(key, Merged(key, orig, rest), |orig|, v);
      }
    }
  }

  lemma DistinctKeysKept<T>(key: T -> string, orig: seq<T>, items: seq<T>)
    requires DistinctKeys(key, orig)
    ensures DistinctKeys(key, Merged(key, orig, items))
  {
    InjectedKeysAreFresh(key, orig, items);
    var m := Merged(key, orig, items);
    assert forall i :: 0 <= i < |orig| ==> m[i] == orig[i];
  }
}
