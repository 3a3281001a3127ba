/** The namespace map: one handler accepts or denies the document, another uses it to
    redirect the registry namespaces of operand requests. */
module NamespaceMap {
  import opened Results
  import opened Pooling

  datatype NsMapping = NsMapping(requestNS: seq<string>, csNs: string)
  datatype CsMaps = CsMaps(controlNs: string, nsMappingList: seq<NsMapping>, defaultCsNs: string)

  // ---------- the validator ----------

  datatype Reason =
    | ControlIsTarget
    | TargetRepeated(ns: string)
    | ControlIsRequested
    | RequestRepeated(ns: string)
  datatype Verdict = Allowed | Denied(reason: Reason)

  function Target(m: NsMapping): seq<string> { [m.csNs] }
  function RequestedFrom(m: NsMapping): seq<string> { m.requestNS }

  function Targets(list: seq<NsMapping>): seq<string>
  {
    Pool(Target, list)
  }

  /** The requested-from entries of all mappings together. */
  function Requested(list: seq<NsMapping>): seq<string>
  {
    Pool(RequestedFrom, list)
  }

  ghost predicate NoDuplicates<T>(s: seq<T>)
  {
    forall i, j :: 0 <= i < j < |s| ==> s[i] != s[j]
  }

  ghost predicate Accepted(doc: CsMaps)
  {
    && NoDuplicates(Targets(doc.nsMappingList)) && doc.controlNs !in Targets(doc.nsMappingList)
    && NoDuplicates(Requested(doc.nsMappingList)) && doc.controlNs !in Requested(doc.nsMappingList)
  }

  /** A denial names a real violation. */
  ghost predicate Justified(doc: CsMaps, reason: Reason)
  {
    match reason
    case ControlIsTarget => doc.controlNs in Targets(doc.nsMappingList)
    case TargetRepeated(ns) => multiset(Targets(doc.nsMappingList))[ns] > 1
    case ControlIsRequested => doc.controlNs in Requested(doc.nsMappingList)
    case RequestRepeated(ns) => multiset(Requested(doc.nsMappingList))[ns] > 1
  }

  /** The document as read up to the target of mapping `i` and the first `j` of its
      requested-from entries. */
  ghost function ReadUpTo(doc: CsMaps, i: nat, j: nat): CsMaps
    requires i < |doc.nsMappingList| && j <= |doc.nsMappingList[i].requestNS|
  {
    var m := doc.nsMappingList[i];
    doc.(nsMappingList := doc.nsMappingList[..i] + [m.(requestNS := m.requestNS[..j])])
  }

  lemma ReadPart(doc: CsMaps, i: nat, j: nat)
    requires i < |doc.nsMappingList| && j <= |doc.nsMappingList[i].requestNS|
    ensures var list, m := doc.nsMappingList, doc.nsMappingList[i];
            && Targets(ReadUpTo(doc, i, j).nsMappingList) == Targets(list[..i]) + [m.csNs]
            && Requested(ReadUpTo(doc, i, j).nsMappingList) == Requested(list[..i]) + m.requestNS[..j]
  {
    var part := ReadUpTo(doc, i, j).nsMappingList;
    Step(part, i);
    assert part[..i] == doc.nsMappingList[..i] && part[..i + 1] == part;
  }

  /** The reason is the first violation met when the document is read mapping by mapping,
      target before entries: all that was read before it is acceptable. */
  ghost predicate FirstViolation(doc: CsMaps, reason: Reason, i: nat, j: nat)
    requires i < |doc.nsMappingList|
  {
    var before, m := doc.nsMappingList[..i], doc.nsMappingList[i];
    match reason
    case ControlIsTarget => j == 0 && Accepted(doc.(nsMappingList := before)) && m.csNs == doc.controlNs
    case TargetRepeated(ns) =>
      && j == 0 && Accepted(doc.(nsMappingList := before)) && m.csNs == ns != doc.controlNs
      && exists k :: 0 <= k < i && before[k].csNs == ns
    case ControlIsRequested =>
      j < |m.requestNS| && Accepted(ReadUpTo(doc, i, j)) && m.requestNS[j] == doc.controlNs
    case RequestRepeated(ns) =>
      && j < |m.requestNS| && Accepted(ReadUpTo(doc, i, j)) && m.requestNS[j] == ns != doc.controlNs
      && (ns in m.requestNS[..j] || exists k :: 0 <= k < i && ns in before[k].requestNS)
  }

  lemma NoDuplicatesIff<T>(s: seq<T>)
    ensures NoDuplicates(s) <==> forall x :: multiset(s)[x] <= 1
  {
    if NoDuplicates(s) {
      forall x
        ensures multiset(s)[x] <= 1
      {
        CountAtMostOne(s, x);
      }
    } else {
      var i, j :| 0 <= i < j < |s| && s[i] == s[j];
      assert s == s[..j] + s[j..] && s[i] in s[..j] && s[j] in s[j..];
      assert multiset(s) == multiset(s[..j]) + multiset(s[j..]);
      assert multiset(s)[s[i]] > 1;
    }
  }

  lemma {:induction false} CountAtMostOne<T>(s: seq<T>, x: T)
    requires NoDuplicates(s)
    ensures multiset(s)[x] <= 1
  {
    if s != [] {
      var rest := s[..|s| - 1];
      assert s == rest + [s[|s| - 1]];
      CountAtMostOne(rest, x);
    }
  }

  lemma Prefixes(list: seq<NsMapping>, i: nat)
    requires i <= |list|
    ensures Targets(list[..i]) <= Targets(list)
    ensures Requested(list[..i]) <= Requested(list)
  {
    assert list == list[..i] + list[i..];
    PoolConcat(Target, list[..i], list[i..]);
    PoolConcat(RequestedFrom, list[..i], list[i..]);
  }

  lemma Step(list: seq<NsMapping>, i: nat)
    requires i < |list|
    ensures Targets(list[..i + 1]) == Targets(list[..i]) + [list[i].csNs]
    ensures Requested(list[..i + 1]) == Requested(list[..i]) + list[i].requestNS
  {
    PoolStep(Target, list, i);
    PoolStep(RequestedFrom, list, i);
  }

  /** What the loops have recorded of the entries `seen`: none is the control namespace,
      none occurs twice. */
  ghost predicate Recorded(known: set<string>, seen: seq<string>, controlNs: string)
  {
    (forall ns :: ns in known <==> ns in seen) && NoDuplicates(seen) && controlNs !in seen
  }

  lemma RecordOne(known: set<string>, seen: seq<string>, controlNs: string, ns: string)
    requires Recorded(known, seen, controlNs) && ns !in known && ns != controlNs
    ensures Recorded(known + {ns}, seen + [ns], controlNs)
  {
  }

  lemma Repeated(seen: seq<string>, all: seq<string>, ns: string)
    requires ns in seen && seen + [ns] <= all
    ensures multiset(all)[ns] > 1 && !NoDuplicates(all)
  {
    var n := |seen|;
    var i :| 0 <= i < n && seen[i] == ns;
    assert all[i] == all[n] == ns;
    assert all == seen + [ns] + all[n + 1..];
    assert multiset(all) == multiset(seen) + multiset{ns} + multiset(all[n + 1..]);
  }

  lemma {:induction false} TargetMember(list: seq<NsMapping>, ns: string)
    ensures ns in Targets(list) <==> exists k :: 0 <= k < |list| && list[k].csNs == ns
  {
    if list != [] {
      var n := |list| - 1;
      TargetMember(list[..n], ns);
      assert forall k :: 0 <= k < n ==> list[..n][k] == list[k];
    }
  }

  lemma {:induction false} RequestedMember(list: seq<NsMapping>, ns: string)
    ensures ns in Requested(list) <==> exists k :: 0 <= k < |list| && ns in list[k].requestNS
  {
    if list != [] {
      var n := |list| - 1;
      RequestedMember(list[..n], ns);
      assert forall k :: 0 <= k < n ==> list[..n][k] == list[k];
    }
  }

  /** A target that is refused is the first violation, and a real one. */
  lemma TargetFails(doc: CsMaps, i: nat, known: set<string>, others: set<string>, reason: Reason)
    requires i < |doc.nsMappingList|
    requires Recorded(known, Targets(doc.nsMappingList[..i]), doc.controlNs)
    requires Recorded(others, Requested(doc.nsMappingList[..i]), doc.controlNs)
    requires var ns := doc.nsMappingList[i].csNs;
             if ns == doc.controlNs then reason == ControlIsTarget else ns in known && reason == TargetRepeated(ns)
    ensures FirstViolation(doc, reason, i, 0) && Justified(doc, reason) && !Accepted(doc)
  {
    var list, ns := doc.nsMappingList, doc.nsMappingList[i].csNs;
    Step(list, i);
    Prefixes(list, i + 1);
    if ns == doc.controlNs {
      assert Targets(list)[|Targets(list[..i])|] == ns;
    } else {
      Repeated(Targets(list[..i]), Targets(list), ns);
      TargetMember(list[..i], ns);
    }
  }

  /** So is a requested-from entry that is refused. */
  lemma EntryFails(doc: CsMaps, i: nat, j: nat, targets: set<string>, known: set<string>, reason: Reason)
    requires i < |doc.nsMappingList| && j < |doc.nsMappingList[i].requestNS|
    requires Recorded(targets, Targets(doc.nsMappingList[..i]) + [doc.nsMappingList[i].csNs], doc.controlNs)
    requires Recorded(known, Requested(doc.nsMappingList[..i]) + doc.nsMappingList[i].requestNS[..j], doc.controlNs)
    requires var ns := doc.nsMappingList[i].requestNS[j];
             if ns == doc.controlNs then reason == ControlIsRequested else ns in known && reason == RequestRepeated(ns)
    ensures FirstViolation(doc, reason, i, j) && Justified(doc, reason) && !Accepted(doc)
  {
    var list, m := doc.nsMappingList, doc.nsMappingList[i];
    var ns, seen := m.requestNS[j], Requested(list[..i]) + m.requestNS[..j];
    Step(list, i);
    Prefixes(list, i + 1);
    ReadPart(doc, i, j);
    OneFurther(Requested(list[..i]), m.requestNS, j, Requested(list));
    if ns == doc.controlNs {
      assert Requested(list)[|seen|] == ns;
    } else {
      Repeated(seen, Requested(list), ns);
      RequestedMember(list[..i], ns);
    }
  }

  method Validate(doc: CsMaps) returns (v: Verdict)
    ensures v.Allowed? <==> Accepted(doc)
    ensures v.Denied? ==> Justified(doc, v.reason)
    ensures v.Denied? ==> exists i, j :: 0 <= i < |doc.nsMappingList| && 0 <= j && FirstViolation(doc, v.reason, i, j)
  {
    var list := doc.nsMappingList;
    var csNsSet: set<string> := {};
    var requestNsSet: set<string> := {};
    for i := 0 to |list|
      invariant Recorded(csNsSet, Targets(list[..i]), doc.controlNs)
      invariant Recorded(requestNsSet, Requested(list[..i]), doc.controlNs)
    {
      Step(list, i);
      var nsMapping := list[i];
      if doc.controlNs == nsMapping.csNs {
        TargetFails(doc, i, csNsSet, requestNsSet, ControlIsTarget);
        return Denied(ControlIsTarget);
      }
      if nsMapping.csNs in csNsSet {
        TargetFails(doc, i, csNsSet, requestNsSet, TargetRepeated(nsMapping.csNs));
        return Denied(TargetRepeated(nsMapping.csNs));
      }
      RecordOne(csNsSet, Targets(list[..i]), doc.controlNs, nsMapping.csNs);
      csNsSet := csNsSet + {nsMapping.csNs};
      ghost var before := Requested(list[..i]);
      assert before + nsMapping.requestNS[..0] == before;
      for j := 0 to |nsMapping.requestNS|
        invariant Recorded(requestNsSet, before + nsMapping.requestNS[..j], doc.controlNs)
      {
        var ns := nsMapping.requestNS[j];
        if doc.controlNs == ns {
          EntryFails(doc, i, j, csNsSet, requestNsSet, ControlIsRequested);
          return Denied(ControlIsRequested);
        }
        if ns in requestNsSet {
          EntryFails(doc, i, j, csNsSet, requestNsSet, RequestRepeated(ns));
          return Denied(RequestRepeated(ns));
        }
        TakeOne(before, nsMapping.requestNS, j);
        RecordOne(requestNsSet, before + nsMapping.requestNS[..j], doc.controlNs, ns);
        requestNsSet := requestNsSet + {ns};
      }
      assert nsMapping.requestNS[..|nsMapping.requestNS|] == nsMapping.requestNS;
    }
    assert list[..|list|] == list;
    v := Allowed;
  }

  lemma TakeOne(before: seq<string>, entries: seq<string>, j: nat)
    requires j < |entries|
    ensures before + entries[..j + 1] == (before + entries[..j]) + [entries[j]]
  {
  }

  lemma OneFurther(before: seq<string>, entries: seq<string>, j: nat, all: seq<string>)
    requires j < |entries| && before + entries <= all
    ensures before + entries[..j + 1] == (before + entries[..j]) + [entries[j]] <= all
  {
  }

  /** The verdict depends only on which targets and which entries occur how often. */
  lemma VerdictAnyOrder(doc: CsMaps, list: seq<NsMapping>)
    requires multiset(Targets(list)) == multiset(Targets(doc.nsMappingList))
    requires multiset(Requested(list)) == multiset(Requested(doc.nsMappingList))
    ensures Accepted(doc.(nsMappingList := list)) <==> Accepted(doc)
  {
    NoDuplicatesIff(Targets(list));
    NoDuplicatesIff(Targets(doc.nsMappingList));
    NoDuplicatesIff(Requested(list));
    NoDuplicatesIff(Requested(doc.nsMappingList));
    assert doc.controlNs in Targets(list) <==> doc.controlNs in multiset(Targets(list));
    assert doc.controlNs in Targets(doc.nsMappingList) <==> doc.controlNs in multiset(Targets(doc.nsMappingList));
    assert doc.controlNs in Requested(list) <==> doc.controlNs in multiset(Requested(list));
    assert doc.controlNs in Requested(doc.nsMappingList) <==> doc.controlNs in multiset(Requested(doc.nsMappingList));
  }

  /** Reordering the entries within mappings keeps the verdict. */
  lemma {:induction false} EntriesReordered(a: seq<NsMapping>, b: seq<NsMapping>)
    requires |a| == |b|
    requires forall i :: 0 <= i < |a| ==> a[i].csNs == b[i].csNs && multiset(a[i].requestNS) == multiset(b[i].requestNS)
    ensures Targets(a) == Targets(b) && multiset(Requested(a)) == multiset(Requested(b))
  {
    if a != [] {
      EntriesReordered(a[..|a| - 1], b[..|b| - 1]);
    }
  }

  /** Reordering the mappings keeps the verdict. */
  lemma MappingsReordered(a: seq<NsMapping>, b: seq<NsMapping>)
    requires multiset(a) == multiset(b)
    ensures multiset(Targets(a)) == multiset(Targets(b))
    ensures multiset(Requested(a)) == multiset(Requested(b))
  {
    PoolReordered(Target, a, b);
    PoolReordered(RequestedFrom, a, b);
  }

  // ---------- the rewriter ----------

  datatype Request = Request(registryNamespace: string, rest: string)

  class OperandRequest {
    const namespace: string
    const requests: array<Request>

    constructor (namespace: string, requests: array<Request>)
      ensures this.namespace == namespace && this.requests == requests
    {
      this.namespace, this.requests := namespace, requests;
    }
  }

  /** How reading the map can end. */
  datatype Lookup = NotFound | Failed | Undecodable | Found(doc: CsMaps)

  const DEFAULT_CS_NS := "ibm-common-services"

  function EffectiveDefault(doc: CsMaps): string
  {
    if doc.defaultCsNs == "" then DEFAULT_CS_NS else doc.defaultCsNs
  }

  predicate Covers(m: NsMapping, ns: string)
  {
    ns in m.requestNS || ns == m.csNs
  }

  /** The first mapping at or after position `i` that covers the namespace. */
  function FirstMatch(list: seq<NsMapping>, ns: string, i: nat): (r: Option<NsMapping>)
    requires i <= |list|
    ensures r.Some? ==> r.value in list && Covers(r.value, ns)
    ensures r.Some? ==> exists k :: i <= k < |list| && r.value == list[k] && Covers(list[k], ns)
                                    && forall j :: i <= j < k ==> !Covers(list[j], ns)
    ensures r.None? ==> forall k :: i <= k < |list| ==> !Covers(list[k], ns)
    decreases |list| - i
  {
    if i == |list| then None
    else if Covers(list[i], ns) then Some(list[i])
    else FirstMatch(list, ns, i + 1)
  }

  function Redirect(requests: seq<Request>, from: string, to: string): (r: seq<Request>)
    ensures |r| == |requests|
    ensures forall i :: 0 <= i < |requests| ==>
              && r[i].rest == requests[i].rest
              && r[i].registryNamespace == if requests[i].registryNamespace == from then to else requests[i].registryNamespace
  {
    seq(|requests|, i requires 0 <= i < |requests| =>
      if requests[i].registryNamespace == from then requests[i].(registryNamespace := to) else requests[i])
  }

  function Rewrite(doc: CsMaps, ns: string, requests: seq<Request>): seq<Request>
  {
    var m := FirstMatch(doc.nsMappingList, ns, 0);
    if m.None? then requests else Redirect(requests, EffectiveDefault(doc), m.value.csNs)
  }

  /** The requests after one admission: only a map that was found can change them. */
  function Admitted(lookup: Lookup, ns: string, requests: seq<Request>): seq<Request>
  {
    if lookup.Found? then Rewrite(lookup.doc, ns, requests) else requests
  }

  /** The first mapping that covers the namespace decides: every request in the default
      namespace gets its target, and nothing else changes. */
  lemma AdmissionSpelledOut(lookup: Lookup, ns: string, requests: seq<Request>)
    ensures |Admitted(lookup, ns, requests)| == |requests|
    ensures !lookup.Found? ==> Admitted(lookup, ns, requests) == requests
    ensures lookup.Found? ==>
              var list := lookup.doc.nsMappingList;
              var default := if lookup.doc.defaultCsNs == "" then "ibm-common-services" else lookup.doc.defaultCsNs;
              && ((forall k :: 0 <= k < |list| ==> ns !in list[k].requestNS && ns != list[k].csNs)
                  ==> Admitted(lookup, ns, requests) == requests)
              && forall k, i :: 0 <= k < |list| && 0 <= i < |requests|
                   && (ns in list[k].requestNS || ns == list[k].csNs)
                   && (forall j :: 0 <= j < k ==> ns !in list[j].requestNS && ns != list[j].csNs)
                   ==> Admitted(lookup, ns, requests)[i]
                       == if requests[i].registryNamespace == default then requests[i].(registryNamespace := list[k].csNs)
                          else requests[i]
  {
    if lookup.Found? {
      var list := lookup.doc.nsMappingList;
      forall k | 0 <= k < |list| && Covers(list[k], ns) && (forall j :: 0 <= j < k ==> !Covers(list[j], ns))
        ensures FirstMatch(list, ns, 0) == Some(list[k])
      {
        var m := FirstMatch(list, ns, 0);
        assert m.Some?;
        var k' :| 0 <= k' < |list| && m.value == list[k'] && Covers(list[k'], ns)
                  && forall j :: 0 <= j < k' ==> !Covers(list[j], ns);
        assert k' == k;
      }
    }
  }

  method FindNamespace(nsList: seq<string>, nsName: string) returns (exist: bool)
    ensures exist <==> nsName in nsList
  {
    for i := 0 to |nsList|
      invariant nsName !in nsList[..i]
    {
      if nsList[i] == nsName {
        return true;
      }
    }
    return false;
  }

  method MutateRequest(lookup: Lookup, opreq: OperandRequest) returns (failed: bool)
    modifies opreq.requests
    ensures failed <==> lookup.Failed? || lookup.Undecodable?
    ensures opreq.requests[..] == Admitted(lookup, opreq.namespace, old(opreq.requests[..]))
    ensures !lookup.Found? ==> opreq.requests[..] == old(opreq.requests[..])
    ensures lookup.Found? ==>
              var list, ns := lookup.doc.nsMappingList, opreq.namespace;
              var default := if lookup.doc.defaultCsNs == "" then "ibm-common-services" else lookup.doc.defaultCsNs;
              && ((forall k :: 0 <= k < |list| ==> ns !in list[k].requestNS && ns != list[k].csNs)
                  ==> opreq.requests[..] == old(opreq.requests[..]))
              && forall k, i :: 0 <= k < |list| && 0 <= i < opreq.requests.Length
                   && (ns in list[k].requestNS || ns == list[k].csNs)
                   && (forall j :: 0 <= j < k ==> ns !in list[j].requestNS && ns != list[j].csNs)
                   ==> opreq.requests[i]
                       == var req := old(opreq.requests[..])[i];
                          if req.registryNamespace == default then req.(registryNamespace := list[k].csNs) else req
  {
    AdmissionSpelledOut(lookup, opreq.namespace, opreq.requests[..]);
    match lookup
    case NotFound => return false;
    case Failed => return true;
    case Undecodable => return true;
    case Found(doc) =>
      var defaultCsNs := if doc.defaultCsNs == "" then DEFAULT_CS_NS else doc.defaultCsNs;
      var list := doc.nsMappingList;
      ghost var before := opreq.requests[..];
      var i := 0;
      while i < |list|
        invariant i <= |list|
        invariant opreq.requests[..] == before
        invariant FirstMatch(list, opreq.namespace, i) == FirstMatch(list, opreq.namespace, 0)
      {
        var found := FindNamespace(list[i].requestNS + [list[i].csNs], opreq.namespace);
        if found {
          assert Covers(list[i], opreq.namespace);
          RedirectAll(opreq.requests, defaultCsNs, list[i].csNs);
          return false;
        }
        i := i + 1;
      }
      return false;
  }

  /** The inner loop: each matching request is read, changed and written back. */
  method RedirectAll(requests: array<Request>, from: string, to: string)
    modifies requests
    ensures requests[..] == Redirect(old(requests[..]), from, to)
  {
    for index := 0 to requests.Length
      invariant forall k :: 0 <= k < index ==> requests[k] == Redirect(old(requests[..]), from, to)[k]
      invariant forall k :: index <= k < requests.Length ==> requests[k] == old(requests[k])
    {
      var req := requests[index];
      if req.registryNamespace == from {
        req := req.(registryNamespace := to);
        requests[index] := req;
      }
    }
  }

  // ---------- what acceptance means for redirection ----------

  lemma {:induction false} TargetsLength(list: seq<NsMapping>)
    ensures |Targets(list)| == |list|
  {
    if list != [] {
      TargetsLength(list[..|list| - 1]);
    }
  }

  lemma TargetsAt(list: seq<NsMapping>, i: nat)
    requires i < |list|
    ensures |Targets(list)| == |list| && Targets(list)[i] == list[i].csNs
  {
    TargetsLength(list);
    TargetsLength(list[..i]);
    Step(list, i);
    Prefixes(list, i + 1);
    assert Targets(list[..i + 1])[i] == list[i].csNs;
  }

  lemma DistinctTargets(doc: CsMaps, i: nat, j: nat)
    requires Accepted(doc) && i < |doc.nsMappingList| && j < |doc.nsMappingList| && i != j
    ensures doc.nsMappingList[i].csNs != doc.nsMappingList[j].csNs
  {
    TargetsAt(doc.nsMappingList, i);
    TargetsAt(doc.nsMappingList, j);
  }

  /** A namespace is requested from by one mapping at most. */
  lemma DistinctRequests(doc: CsMaps, i: nat, j: nat, ns: string)
    requires Accepted(doc) && i < j < |doc.nsMappingList|
    ensures ns in doc.nsMappingList[i].requestNS ==> ns !in doc.nsMappingList[j].requestNS
  {
    var list := doc.nsMappingList;
    if ns in list[i].requestNS {
      Step(list, i);
      Step(list, j);
      assert list[..j][..i + 1] == list[..i + 1];
      Prefixes(list[..j], i + 1);
      Prefixes(list, j + 1);
      InPrefix(Requested(list[..i + 1]), Requested(list[..j]), ns);
      InOneHalf(Requested(list[..j]), list[j].requestNS, Requested(list), ns);
    }
  }

  lemma InPrefix<T>(s: seq<T>, t: seq<T>, x: T)
    requires s <= t && x in s
    ensures x in t
  {
    var i :| 0 <= i < |s| && s[i] == x;
    assert t[i] == x;
  }

  lemma InOneHalf<T>(s: seq<T>, t: seq<T>, all: seq<T>, x: T)
    requires s + t <= all && NoDuplicates(all) && x in s
    ensures x !in t
  {
    var a :| 0 <= a < |s| && s[a] == x;
    forall b | 0 <= b < |t|
      ensures t[b] != x
    {
      assert all[a] == s[a] && all[|s| + b] == t[b];
    }
  }

  /** Under an accepted map two different mappings cover a namespace only if one does so
      as its target and the other through its requested-from list. */
  lemma TwoCoversSplit(doc: CsMaps, i: nat, j: nat, ns: string)
    requires Accepted(doc) && i < |doc.nsMappingList| && j < |doc.nsMappingList| && i != j
    requires Covers(doc.nsMappingList[i], ns) && Covers(doc.nsMappingList[j], ns)
    ensures (ns == doc.nsMappingList[i].csNs) != (ns == doc.nsMappingList[j].csNs)
    ensures (ns in doc.nsMappingList[i].requestNS) != (ns in doc.nsMappingList[j].requestNS)
  {
    DistinctTargets(doc, i, j);
    DistinctRequests(doc, if i < j then i else j, if i < j then j else i, ns);
  }

  /** At most two mappings cover a namespace. */
  lemma AtMostTwoCover(doc: CsMaps, i: nat, j: nat, k: nat, ns: string)
    requires Accepted(doc) && i < j < k < |doc.nsMappingList|
    ensures !(Covers(doc.nsMappingList[i], ns) && Covers(doc.nsMappingList[j], ns) && Covers(doc.nsMappingList[k], ns))
  {
    if Covers(doc.nsMappingList[i], ns) && Covers(doc.nsMappingList[j], ns) && Covers(doc.nsMappingList[k], ns) {
      TwoCoversSplit(doc, i, j, ns);
      TwoCoversSplit(doc, i, k, ns);
      TwoCoversSplit(doc, j, k, ns);
      assert false;
    }
  }

  /** The namespace is the target of one mapping and requested from by another. */
  ghost predicate Crossed(list: seq<NsMapping>, ns: string)
  {
    exists i, j :: 0 <= i < |list| && 0 <= j < |list| && i != j && ns == list[i].csNs && ns in list[j].requestNS
  }

  /** No reordering of the mappings changes what requests from the namespace become. */
  ghost predicate OrderFree(doc: CsMaps, ns: string)
  {
    forall list, requests :: multiset(list) == multiset(doc.nsMappingList) ==>
      Rewrite(doc.(nsMappingList := list), ns, requests) == Rewrite(doc, ns, requests)
  }

  lemma UniqueCover(doc: CsMaps, ns: string, m: NsMapping, m': NsMapping)
    requires Accepted(doc) && !Crossed(doc.nsMappingList, ns)
    requires m in doc.nsMappingList && m' in doc.nsMappingList && Covers(m, ns) && Covers(m', ns)
    ensures m == m'
  {
    var list := doc.nsMappingList;
    var i :| 0 <= i < |list| && list[i] == m;
    var j :| 0 <= j < |list| && list[j] == m';
    if i != j {
      TwoCoversSplit(doc, i, j, ns);
    }
  }

  function ToFront(list: seq<NsMapping>, i: nat): (r: seq<NsMapping>)
    requires i < |list|
    ensures r != [] && r[0] == list[i] && multiset(r) == multiset(list)
  {
    assert list == list[..i] + [list[i]] + list[i + 1..];
    [list[i]] + list[..i] + list[i + 1..]
  }

  /** Redirection is well defined, whatever the order of an accepted map, exactly for the
      namespaces that are not crossed. The validator does not rule crossing out. */
  lemma OrderFreeIff(doc: CsMaps, ns: string)
    requires Accepted(doc)
    ensures OrderFree(doc, ns) <==> !Crossed(doc.nsMappingList, ns)
  {
    if Crossed(doc.nsMappingList, ns) {
      CrossedOrderMatters(doc, ns);
    } else {
      forall list, requests | multiset(list) == multiset(doc.nsMappingList)
        ensures Rewrite(doc.(nsMappingList := list), ns, requests) == Rewrite(doc, ns, requests)
      {
        SameFirstMatch(doc, ns, list);
      }
    }
  }

  lemma SameFirstMatch(doc: CsMaps, ns: string, list: seq<NsMapping>)
    requires Accepted(doc) && !Crossed(doc.nsMappingList, ns)
    requires multiset(list) == multiset(doc.nsMappingList)
    ensures FirstMatch(list, ns, 0) == FirstMatch(doc.nsMappingList, ns, 0)
  {
    forall m
      ensures m in list <==> m in doc.nsMappingList
    {
      assert m in list <==> m in multiset(list);
      assert m in doc.nsMappingList <==> m in multiset(doc.nsMappingList);
    }
    var a, b := FirstMatch(list, ns, 0), FirstMatch(doc.nsMappingList, ns, 0);
    if a.Some? && b.Some? {
      UniqueCover(doc, ns, a.value, b.value);
    }
  }

  lemma CrossedOrderMatters(doc: CsMaps, ns: string)
    requires Accepted(doc) && Crossed(doc.nsMappingList, ns)
    ensures !OrderFree(doc, ns)
  {
    var list := doc.nsMappingList;
    var i, j :| 0 <= i < |list| && 0 <= j < |list| && i != j && ns == list[i].csNs && ns in list[j].requestNS;
    DistinctTargets(doc, i, j);
    var requests := [Request(EffectiveDefault(doc), "")];
    var a, b := doc.(nsMappingList := ToFront(list, i)), doc.(nsMappingList := ToFront(list, j));
    assert Rewrite(a, ns, requests)[0].registryNamespace == list[i].csNs;
    assert Rewrite(b, ns, requests)[0].registryNamespace == list[j].csNs;
    assert Rewrite(a, ns, requests) != Rewrite(doc, ns, requests) || Rewrite(b, ns, requests) != Rewrite(doc, ns, requests);
  }

  /** An accepted map for which the order of the mappings matters. */
  lemma AcceptedYetCrossed() returns (doc: CsMaps)
    ensures Accepted(doc) && Crossed(doc.nsMappingList, "a") && !OrderFree(doc, "a")
  {
    var m, n := NsMapping([], "a"), NsMapping(["a"], "b");
    doc := CsMaps("control", [m, n], "");
    var list := doc.nsMappingList;
    Step(list, 0);
    Step(list, 1);
    assert list[..2] == list && list[..0] == [];
    assert "a"[0] != "b"[0] && "control"[0] != "a"[0] && "control"[0] != "b"[0];
    assert list[0].csNs == "a" && "a" in list[1].requestNS;
    CrossedOrderMatters(doc, "a");
  }

  // ---------- the control namespace ----------

  lemma {:induction false} TargetIn(list: seq<NsMapping>, m: NsMapping, ns: string)
    requires m in list && Covers(m, ns)
    ensures m.csNs in Targets(list)
    ensures ns in Targets(list) || ns in Requested(list)
  {
    var rest, last := list[..|list| - 1], list[|list| - 1];
    assert list == rest + [last];
    if m in rest {
      TargetIn(rest, m, ns);
    }
  }

  /** Under an accepted map a request in the control namespace is never altered, and no
      request is redirected into the control namespace. */
  lemma ControlIsIsolated(doc: CsMaps, ns: string, requests: seq<Request>)
    requires Accepted(doc)
    ensures ns == doc.controlNs ==> Rewrite(doc, ns, requests) == requests
    ensures forall r :: 0 <= r < |requests| && Rewrite(doc, ns, requests)[r] != requests[r]
              ==> Rewrite(doc, ns, requests)[r].registryNamespace != doc.controlNs
  {
    var m := FirstMatch(doc.nsMappingList, ns, 0);
    if m.Some? {
      TargetIn(doc.nsMappingList, m.value, ns);
    }
  }

  /** A second rewrite under the same map does nothing. */
  lemma RewriteTwice(doc: CsMaps, ns: string, requests: seq<Request>)
    ensures Rewrite(doc, ns, Rewrite(doc, ns, requests)) == Rewrite(doc, ns, requests)
  {
  }

  // ---------- runs of admissions under changing maps ----------

  /** The requests after the first `n` admissions of a run. Each reads the map anew: it may
      be found, changed since, absent, unreadable, or out of reach. */
  function Run(lookups: seq<Lookup>, ns: string, requests: seq<Request>, n: nat): (r: seq<Request>)
    requires n <= |lookups|
    ensures |r| == |requests|
    ensures forall i :: 0 <= i < |requests| ==> r[i].rest == requests[i].rest
  {
    if n == 0 then requests else Admitted(lookups[n - 1], ns, Run(lookups, ns, requests, n - 1))
  }

  ghost predicate ShareDefault(lookups: seq<Lookup>, default: string)
  {
    forall l :: l in lookups && l.Found? ==> EffectiveDefault(l.doc) == default
  }

  /** A request that is not in the default namespace is never touched again. */
  lemma {:induction false} OffDefaultStays(lookups: seq<Lookup>, ns: string, requests: seq<Request>, default: string,
                                           a: nat, b: nat, r: nat)
    requires a <= b <= |lookups| && r < |requests| && ShareDefault(lookups, default)
    requires Run(lookups, ns, requests, a)[r].registryNamespace != default
    ensures Run(lookups, ns, requests, b)[r] == Run(lookups, ns, requests, a)[r]
  {
    if a < b {
      OffDefaultStays(lookups, ns, requests, default, a, b - 1, r);
      assert lookups[b - 1] in lookups;
    }
  }

  /** Over every run with one effective default a request changes at most once, and only
      away from the default. */
  lemma ChangesAtMostOnce(lookups: seq<Lookup>, ns: string, requests: seq<Request>, default: string, a: nat,
                          b: nat, r: nat)
    requires a < b <= |lookups| && r < |requests| && ShareDefault(lookups, default)
    requires Run(lookups, ns, requests, a + 1)[r] != Run(lookups, ns, requests, a)[r]
    ensures Run(lookups, ns, requests, a)[r].registryNamespace == default
    ensures Run(lookups, ns, requests, b)[r] == Run(lookups, ns, requests, a + 1)[r]
    ensures Run(lookups, ns, requests, b)[r].registryNamespace != default
    ensures Run(lookups, ns, requests, a)[r] == requests[r]
  {
    assert lookups[a] in lookups;
    OffDefaultStays(lookups, ns, requests, default, a + 1, b, r);
    UnchangedUntil(lookups, ns, requests, default, a, r);
  }

  lemma {:induction false} UnchangedUntil(lookups: seq<Lookup>, ns: string, requests: seq<Request>, default: string,
                                          a: nat, r: nat)
    requires a <= |lookups| && r < |requests| && ShareDefault(lookups, default)
    requires Run(lookups, ns, requests, a)[r].registryNamespace == default
    ensures Run(lookups, ns, requests, a)[r] == requests[r]
  {
    if a > 0 {
      assert lookups[a - 1] in lookups;
      if Run(lookups, ns, requests, a - 1)[r].registryNamespace != default {
        OffDefaultStays(lookups, ns, requests, default, a - 1, a, r);
      }
      UnchangedUntil(lookups, ns, requests, default, a - 1, r);
    }
  }

  /** Over every run in which each map that is found was accepted and keeps the control
      namespace, requests in it are never altered and none from elsewhere ends up in it. */
  lemma {:induction false} RunKeepsControlIsolated(lookups: seq<Lookup>, ns: string, requests: seq<Request>, n: nat,
                                                   controlNs: string)
    requires n <= |lookups|
    requires forall l :: l in lookups && l.Found? ==> Accepted(l.doc) && l.doc.controlNs == controlNs
    ensures ns == controlNs ==> Run(lookups, ns, requests, n) == requests
    ensures forall r :: 0 <= r < |requests| && Run(lookups, ns, requests, n)[r].registryNamespace == controlNs
              ==> requests[r].registryNamespace == controlNs
  {
    if n > 0 {
      var l := lookups[n - 1];
      assert l in lookups;
      RunKeepsControlIsolated(lookups, ns, requests, n - 1, controlNs);
      if l.Found? {
        ControlIsIsolated(l.doc, ns, Run(lookups, ns, requests, n - 1));
      }
    }
  }
}
