/** The merges spelled out: which injected items are appended and which are reported as
    conflicts, by their positions. */
module MergeLaws {
  import opened Results
  import opened PodTypes
  import opened KeyedMerge
  import opened PodMerge

  /** `r` is what stands in `list` at the increasing positions `at`, all below `n`. */
  ghost predicate Picked<T>(r: seq<T>, list: seq<T>, at: seq<nat>, n: nat)
  {
    && n <= |list| && |at| == |r|
    && (forall k :: 0 <= k < |at| ==> at[k] < n && r[k] == list[at[k]])
    && (forall k, m :: 0 <= k < m < |at| ==> at[k] < at[m])
  }

  lemma PickedNext<T>(r: seq<T>, list: seq<T>, before: seq<nat>, n: nat, pick: bool) returns (at: seq<nat>)
    requires Picked(r, list, before, n) && n < |list|
    ensures Picked(if pick then r + [list[n]] else r, list, at, n + 1)
    ensures forall i :: 0 <= i < n ==> (i in at <==> i in before)
    ensures n in at <==> pick
  {
    at := if pick then before + [n] else before;
  }

  // ---------- what is appended ----------

  lemma {:induction false} FirstOccurrencesPicked<T>(key: T -> string, orig: seq<T>, items: seq<T>, n: nat)
    returns (at: seq<nat>)
    requires n <= |items|
    ensures Picked(FirstOccurrences(key, orig, items, n), items, at, n)
    ensures forall i :: 0 <= i < n ==> (i in at <==> FirstOfKey(key, orig, items, i))
  {
    at := [];
    if n > 0 {
      var before := FirstOccurrencesPicked(key, orig, items, n - 1);
      var rest := FirstOccurrences(key, orig, items, n - 1);
      at := PickedNext(rest, items, before, n - 1, FirstOfKey(key, orig, items, n - 1));
    }
  }

  lemma FirstOfKeyIff<T>(key: T -> string, orig: seq<T>, items: seq<T>, i: nat)
    requires i < |items|
    ensures FirstOfKey(key, orig, items, i)
            <==> && (forall u :: u in orig ==> key(u) != key(items[i]))
                 && (forall j :: 0 <= j < i ==> key(items[j]) != key(items[i]))
  {
    forall j | 0 <= j < i
      ensures items[j] in items[..i]
    {
      assert items[..i][j] == items[j];
    }
  }

  /** What is appended: the items at the positions whose key is new to the list and to the
      items before, in order. */
  lemma FirstOccurrencesAt<T>(key: T -> string, orig: seq<T>, items: seq<T>) returns (at: seq<nat>)
    ensures Picked(FirstOccurrences(key, orig, items, |items|), items, at, |items|)
    ensures forall i :: 0 <= i < |items| ==>
              (i in at <==> && (forall u :: u in orig ==> key(u) != key(items[i]))
                            && (forall j :: 0 <= j < i ==> key(items[j]) != key(items[i])))
  {
    at := FirstOccurrencesPicked(key, orig, items, |items|);
    forall i | 0 <= i < |items|
      ensures FirstOfKey(key, orig, items, i)
              <==> && (forall u :: u in orig ==> key(u) != key(items[i]))
                   && (forall j :: 0 <= j < i ==> key(items[j]) != key(items[i]))
    {
      FirstOfKeyIff(key, orig, items, i);
    }
  }

  // ---------- what is reported ----------

  ghost predicate IsLastOf<T>(key: T -> string, own: seq<T>, i: nat, k: string)
  {
    i < |own| && key(own[i]) == k && forall j :: i < j < |own| ==> key(own[j]) != k
  }

  lemma LastOfKey<T>(key: T -> string, s: seq<T>, k: string) returns (i: nat)
    requires k in Index(key, s)
    ensures IsLastOf(key, s, i, k) && Index(key, s)[k] == s[i]
    decreases |s|
  {
    var n := |s| - 1;
    if key(s[n]) == k {
      i := n;
    } else {
      i := LastOfKey(key, s[..n], k);
    }
  }

  lemma OneLast<T>(key: T -> string, own: seq<T>, i: nat, j: nat, k: string)
    requires IsLastOf(key, own, i, k) && IsLastOf(key, own, j, k)
    ensures i == j
  {
  }

  ghost predicate IsFirstOf<T>(key: T -> string, items: seq<T>, j: nat, k: string)
  {
    j < |items| && key(items[j]) == k && forall l :: 0 <= l < j ==> key(items[l]) != k
  }

  lemma OneFirst<T>(key: T -> string, items: seq<T>, i: nat, j: nat, k: string)
    requires IsFirstOf(key, items, i, k) && IsFirstOf(key, items, j, k)
    ensures i == j
  {
  }

  /** An item is refused when it differs from the last original entry of its key or, if
      there is none, from the first item offered with its key. */
  ghost predicate Refused<T>(key: T -> string, orig: seq<T>, items: seq<T>, i: nat)
    requires i < |items|
  {
    var k := key(items[i]);
    || (exists u: nat :: IsLastOf(key, orig, u, k) && orig[u] != items[i])
    || ((forall u :: u in orig ==> key(u) != k) && exists j: nat :: IsFirstOf(key, items, j, k) && items[j] != items[i])
  }

  lemma ClashWithOwn<T>(key: T -> string, orig: seq<T>, items: seq<T>, i: nat)
    requires i < |items| && key(items[i]) in Index(key, orig)
    ensures Clash(key, Index(key, Merged(key, orig, items[..i])), items[i]) <==> Refused(key, orig, items, i)
  {
    var k := key(items[i]);
    var u := LastOfKey(key, orig, k);
    OriginalHolder(key, orig, items[..i], k);
    assert orig[u] in orig;
    forall u': nat | IsLastOf(key, orig, u', k)
      ensures u' == u
    {
      OneLast(key, orig, u, u', k);
    }
  }

  /** A key that is new to the list is held by the first item that brings it. */
  lemma FirstHolds<T>(key: T -> string, orig: seq<T>, items: seq<T>, i: nat) returns (j: nat)
    requires i < |items| && key(items[i]) !in Index(key, orig)
    ensures IsFirstOf(key, items, j, key(items[i])) && j <= i
    ensures var held, k := Index(key, Merged(key, orig, items[..i])), key(items[i]);
            if j == i then k !in held else k in held && held[k] == items[j]
  {
    var k := key(items[i]);
    HeldIff(key, orig, items[..i], k);
    j := FirstWithKey(key, items, k);
    FirstIs(key, items, j, k);
    NewToList(key, orig, k);
    if j < i {
      assert items[..i][..j] == items[..j] && items[..i][j] == items[j];
      FirstItemHolds(key, orig, items[..i], j);
    }
  }

  lemma NewToList<T>(key: T -> string, orig: seq<T>, k: string)
    requires k !in Index(key, orig)
    ensures NoneHas(key, orig, k)
  {
    forall u | u in orig
      ensures key(u) != k
    {
      Indexed(key, orig, u);
    }
  }

  lemma ClashWithItem<T>(key: T -> string, orig: seq<T>, items: seq<T>, i: nat)
    requires i < |items| && key(items[i]) !in Index(key, orig)
    ensures Clash(key, Index(key, Merged(key, orig, items[..i])), items[i]) <==> Refused(key, orig, items, i)
  {
    var k := key(items[i]);
    var j := FirstHolds(key, orig, items, i);
    NewToList(key, orig, k);
    forall j': nat | IsFirstOf(key, items, j', k)
      ensures j' == j
    {
      OneFirst(key, items, j, j', k);
    }
  }

  lemma FirstIs<T>(key: T -> string, items: seq<T>, j: nat, k: string)
    requires j < |items| && key(items[j]) == k && NoneHas(key, items[..j], k)
    ensures IsFirstOf(key, items, j, k)
    ensures forall i :: 0 <= i <= |items| ==> (NoneHas(key, items[..i], k) <==> i <= j)
  {
    forall l | 0 <= l < j
      ensures key(items[l]) != k
    {
      assert items[..j][l] == items[l];
    }
    forall i | j < i <= |items|
      ensures items[j] in items[..i]
    {
      assert items[..i][j] == items[j];
    }
  }

  lemma ClashIff<T>(key: T -> string, orig: seq<T>, items: seq<T>, i: nat)
    requires i < |items|
    ensures Clash(key, Index(key, Merged(key, orig, items[..i])), items[i]) <==> Refused(key, orig, items, i)
  {
    if key(items[i]) in Index(key, orig) {
      ClashWithOwn(key, orig, items, i);
    } else {
      ClashWithItem(key, orig, items, i);
    }
  }

  lemma ConflictsStep<T>(key: T -> string, orig: seq<T>, items: seq<T>, n: nat)
    requires n < |items|
    ensures var rest := Conflicts(key, orig, items[..n]);
            Conflicts(key, orig, items[..n + 1]) == AddIf(Refused(key, orig, items, n), rest, items[n])
  {
    assert items[..n + 1] == items[..n] + [items[n]];
    ConflictsSnoc(key, orig, items[..n], items[n]);
    ClashIff(key, orig, items, n);
  }

  function AddIf<T>(b: bool, s: seq<T>, x: T): (r: seq<T>)
    ensures multiset(r) == if b then multiset(s) + multiset{x} else multiset(s)
  {
    if b then s + [x] else s
  }

  /** The marked positions below `n`. */
  function Marked(marks: seq<bool>, n: nat): seq<nat>
    requires n <= |marks|
  {
    if n == 0 then [] else AddIf(marks[n - 1], Marked(marks, n - 1), n - 1)
  }

  lemma {:induction false} MarkedIff(marks: seq<bool>, n: nat)
    requires n <= |marks|
    ensures forall i :: i in Marked(marks, n) <==> 0 <= i < n && marks[i]
  {
    if n > 0 {
      MarkedIff(marks, n - 1);
    }
  }

  /** The marks say which items are refused. */
  ghost predicate Marks<T>(key: T -> string, orig: seq<T>, items: seq<T>, marks: seq<bool>)
  {
    |marks| == |items| && forall i :: 0 <= i < |items| ==> (marks[i] <==> Refused(key, orig, items, i))
  }

  lemma MarkAll<T>(key: T -> string, orig: seq<T>, items: seq<T>) returns (marks: seq<bool>)
    ensures Marks(key, orig, items, marks)
  {
    marks := seq(|items|, i requires 0 <= i < |items| => Refused(key, orig, items, i));
  }

  lemma MarkedStep<T>(key: T -> string, orig: seq<T>, items: seq<T>, marks: seq<bool>, n: nat)
    requires Marks(key, orig, items, marks) && n < |items|
    ensures Conflicts(key, orig, items[..n + 1]) == AddIf(marks[n], Conflicts(key, orig, items[..n]), items[n])
  {
    ConflictsStep(key, orig, items, n);
  }

  lemma {:induction false} ConflictsPicked<T>(key: T -> string, orig: seq<T>, items: seq<T>, marks: seq<bool>, n: nat)
    requires Marks(key, orig, items, marks) && n <= |items|
    ensures Picked(Conflicts(key, orig, items[..n]), items, Marked(marks, n), n)
  {
    if n > 0 {
      ConflictsPicked(key, orig, items, marks, n - 1);
      MarkedStep(key, orig, items, marks, n - 1);
      AddPicked(Conflicts(key, orig, items[..n - 1]), items, Marked(marks, n - 1), n - 1, marks[n - 1]);
    }
  }

  lemma AddPicked<T>(r: seq<T>, list: seq<T>, at: seq<nat>, n: nat, b: bool)
    requires Picked(r, list, at, n) && n < |list|
    ensures Picked(AddIf(b, r, list[n]), list, AddIf(b, at, n), n + 1)
  {
  }

  /** What is reported: the items at the refused positions, in order. */
  lemma ConflictsAt<T>(key: T -> string, orig: seq<T>, items: seq<T>) returns (at: seq<nat>)
    ensures Picked(Conflicts(key, orig, items), items, at, |items|)
    ensures forall i :: 0 <= i < |items| ==> (i in at <==> Refused(key, orig, items, i))
  {
    var marks := MarkAll(key, orig, items);
    at := Marked(marks, |items|);
    ConflictsPicked(key, orig, items, marks, |items|);
    assert items[..|items|] == items;
    MarkedIff(marks, |items|);
  }

  // ---------- the mounts that are reported ----------

  lemma {:induction false} SameConflicts<T(!new)>(key: T -> string, name: T -> string, orig: seq<T>, items: seq<T>)
    requires forall v :: key(v) == name(v)
    ensures Merged(key, orig, items) == Merged(name, orig, items)
    ensures Conflicts(key, orig, items) == Conflicts(name, orig, items)
  {
    if items != [] {
      SameConflicts(key, name, orig, items[..|items| - 1]);
      SameIndex(key, name, Merged(key, orig, items[..|items| - 1]));
    }
  }

  lemma {:induction false} SameIndex<T(!new)>(key: T -> string, name: T -> string, s: seq<T>)
    requires forall v :: key(v) == name(v)
    ensures Index(key, s) == Index(name, s)
  {
    if s != [] {
      SameIndex(key, name, s[..|s| - 1]);
    }
  }

  /** A mount is reported once for every one of its two keys under which it is refused. */
  lemma {:induction false} MountConflictsSplit(orig: seq<VolumeMount>, items: seq<VolumeMount>)
    ensures multiset(MountConflicts(orig, items))
            == multiset(Conflicts((v: VolumeMount) => v.name, orig, items))
               + multiset(Conflicts((v: VolumeMount) => v.mountPath, orig, items))
  {
    SameConflicts(MountName, (v: VolumeMount) => v.name, orig, items);
    SameConflicts(MountPath, (v: VolumeMount) => v.mountPath, orig, items);
    if items != [] {
      var rest := items[..|items| - 1];
      MountConflictsSplit(orig, rest);
      SameConflicts(MountName, (v: VolumeMount) => v.name, orig, rest);
      SameConflicts(MountPath, (v: VolumeMount) => v.mountPath, orig, rest);
    }
  }
}
