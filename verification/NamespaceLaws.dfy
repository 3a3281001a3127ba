/** The namespace map spelled out: which documents are accepted, and why one is denied, in
    terms of the mappings alone. */
module NamespaceLaws {
  import opened Results
  import opened NamespaceMap

  // ---------- acceptance ----------

  ghost predicate GoodTargets(controlNs: string, list: seq<NsMapping>)
  {
    && (forall i :: 0 <= i < |list| ==> list[i].csNs != controlNs)
    && (forall i, j :: 0 <= i < j < |list| ==> list[i].csNs != list[j].csNs)
  }

  ghost predicate GoodEntries(controlNs: string, list: seq<NsMapping>)
  {
    && (forall i :: 0 <= i < |list| ==> controlNs !in list[i].requestNS && NoDuplicates(list[i].requestNS))
    && (forall i, j, ns :: 0 <= i < j < |list| && ns in list[i].requestNS ==> ns !in list[j].requestNS)
  }

  lemma GoodTargetsIff(controlNs: string, list: seq<NsMapping>)
    ensures NoDuplicates(Targets(list)) && controlNs !in Targets(list) <==> GoodTargets(controlNs, list)
  {
    TargetsLength(list);
    TargetMember(list, controlNs);
    forall i | 0 <= i < |list|
      ensures Targets(list)[i] == list[i].csNs
    {
      TargetsAt(list, i);
    }
  }

  lemma NoDuplicatesConcat<T>(s: seq<T>, t: seq<T>)
    ensures NoDuplicates(s + t) <==> NoDuplicates(s) && NoDuplicates(t) && forall x :: x in s ==> x !in t
  {
    if NoDuplicates(s + t) {
      SamePrefix(s, s + t);
      forall i, j | 0 <= i < j < |t|
        ensures t[i] != t[j]
      {
        assert (s + t)[|s| + i] != (s + t)[|s| + j];
      }
      forall x | x in s
        ensures x !in t
      {
        InOneHalf(s, t, s + t, x);
      }
    } else if NoDuplicates(s) && NoDuplicates(t) {
      var i, j :| 0 <= i < j < |s + t| && (s + t)[i] == (s + t)[j];
      assert i < |s| <= j;
      assert s[i] in s && t[j - |s|] in t;
    }
  }

  lemma {:induction false} GoodEntriesIff(controlNs: string, list: seq<NsMapping>)
    ensures NoDuplicates(Requested(list)) && controlNs !in Requested(list) <==> GoodEntries(controlNs, list)
  {
    if list != [] {
      var n := |list| - 1;
      GoodEntriesIff(controlNs, list[..n]);
      NoDuplicatesConcat(Requested(list[..n]), list[n].requestNS);
      forall ns
        ensures ns in Requested(list[..n]) <==> exists k :: 0 <= k < n && ns in list[k].requestNS
      {
        RequestedMember(list[..n], ns);
        assert forall k :: 0 <= k < n ==> list[..n][k] == list[k];
      }
      GoodEntriesSnoc(controlNs, list, n);
    }
  }

  lemma GoodEntriesSnoc(controlNs: string, list: seq<NsMapping>, n: nat)
    requires |list| == n + 1
    ensures GoodEntries(controlNs, list)
            <==> && GoodEntries(controlNs, list[..n])
                 && controlNs !in list[n].requestNS && NoDuplicates(list[n].requestNS)
                 && forall k, ns :: 0 <= k < n && ns in list[k].requestNS ==> ns !in list[n].requestNS
  {
    assert forall k :: 0 <= k < n ==> list[..n][k] == list[k];
  }

  /** A document is accepted exactly when the targets differ pairwise, no entry is
      requested from twice, within a mapping or across two, and the control namespace
      occurs nowhere. */
  lemma AcceptedSpelledOut(doc: CsMaps)
    ensures var list := doc.nsMappingList;
            Accepted(doc)
            <==> && (forall i :: 0 <= i < |list| ==> list[i].csNs != doc.controlNs && doc.controlNs !in list[i].requestNS)
                 && (forall i, j :: 0 <= i < j < |list| ==> list[i].csNs != list[j].csNs)
                 && (forall i, a, b :: 0 <= i < |list| && 0 <= a < b < |list[i].requestNS|
                       ==> list[i].requestNS[a] != list[i].requestNS[b])
                 && (forall i, j, ns :: 0 <= i < j < |list| && ns in list[i].requestNS ==> ns !in list[j].requestNS)
  {
    GoodTargetsIff(doc.controlNs, doc.nsMappingList);
    GoodEntriesIff(doc.controlNs, doc.nsMappingList);
  }

  // ---------- denial ----------

  lemma AcceptedPart(doc: CsMaps, list: seq<NsMapping>)
    requires Accepted(doc) && list <= doc.nsMappingList
    ensures Accepted(doc.(nsMappingList := list))
  {
    assert list == doc.nsMappingList[..|list|];
    Prefixes(doc.nsMappingList, |list|);
    SamePrefix(Targets(list), Targets(doc.nsMappingList));
    SamePrefix(Requested(list), Requested(doc.nsMappingList));
  }

  lemma SamePrefix<T>(s: seq<T>, t: seq<T>)
    requires s <= t
    ensures NoDuplicates(t) ==> NoDuplicates(s)
    ensures forall x :: x in s ==> x in t
  {
    forall x | x in s
      ensures x in t
    {
      InPrefix(s, t, x);
    }
  }

  ghost predicate AtTarget(reason: Reason)
  {
    reason.ControlIsTarget? || reason.TargetRepeated?
  }

  /** Nothing that includes the violation is acceptable. */
  lemma ViolationStays(doc: CsMaps, reason: Reason, i: nat, j: nat, part: CsMaps)
    requires i < |doc.nsMappingList| && FirstViolation(doc, reason, i, j)
    requires part.controlNs == doc.controlNs && i < |part.nsMappingList| && part.nsMappingList[..i] == doc.nsMappingList[..i]
    requires part.nsMappingList[i].csNs == doc.nsMappingList[i].csNs
    requires !AtTarget(reason) ==> j < |part.nsMappingList[i].requestNS|
                                   && part.nsMappingList[i].requestNS[..j + 1] == doc.nsMappingList[i].requestNS[..j + 1]
    ensures !Accepted(part)
  {
    AcceptedSpelledOut(part);
    var list, m := part.nsMappingList, part.nsMappingList[i];
    forall k | 0 <= k < i
      ensures list[k] == doc.nsMappingList[k]
    {
      assert list[..i][k] == doc.nsMappingList[..i][k];
    }
    if !AtTarget(reason) {
      forall k | 0 <= k <= j
        ensures m.requestNS[k] == doc.nsMappingList[i].requestNS[k]
      {
        assert m.requestNS[..j + 1][k] == doc.nsMappingList[i].requestNS[..j + 1][k];
      }
    }
  }

  /** What was read before a violation is acceptable. */
  lemma AcceptedBefore(doc: CsMaps, reason: Reason, i: nat, j: nat)
    requires i < |doc.nsMappingList| && FirstViolation(doc, reason, i, j)
    ensures Accepted(doc.(nsMappingList := doc.nsMappingList[..i]))
  {
    if !AtTarget(reason) {
      AcceptedPart(ReadUpTo(doc, i, j), doc.nsMappingList[..i]);
    }
  }

  lemma NoLaterViolation(doc: CsMaps, reason: Reason, i: nat, j: nat, other: Reason, k: nat, l: nat)
    requires i < |doc.nsMappingList| && FirstViolation(doc, reason, i, j)
    requires k < |doc.nsMappingList| && FirstViolation(doc, other, k, l)
    ensures k <= i && (k == i && AtTarget(reason) ==> AtTarget(other))
    ensures k == i && !AtTarget(reason) && !AtTarget(other) ==> l <= j
  {
    if i < k {
      AcceptedBefore(doc, other, k, l);
      ViolationStays(doc, reason, i, j, doc.(nsMappingList := doc.nsMappingList[..k]));
      assert false;
    } else if i == k && !AtTarget(other) && (AtTarget(reason) || j < l) {
      ViolationStays(doc, reason, i, j, ReadUpTo(doc, k, l));
      assert false;
    }
  }

  /** A denied document has one first violation, so the answer is fully determined. */
  lemma OneReason(doc: CsMaps, reason: Reason, i: nat, j: nat, other: Reason, k: nat, l: nat)
    requires i < |doc.nsMappingList| && FirstViolation(doc, reason, i, j)
    requires k < |doc.nsMappingList| && FirstViolation(doc, other, k, l)
    ensures reason == other && i == k && j == l
  {
    NoLaterViolation(doc, reason, i, j, other, k, l);
    NoLaterViolation(doc, other, k, l, reason, i, j);
  }
}
