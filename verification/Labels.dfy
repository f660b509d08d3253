/** Label selectors, the selection of clusters, and the watch maps that turn a cluster event into requests. */
module Labels {
  import opened Api

  datatype Operator = In | NotIn | Exists | DoesNotExist | UnknownOperator

  datatype Requirement = Requirement(key: string, op: Operator, values: seq<string>)

  /** `wellSpelt` is the verdict of the library's syntax check on the selector's keys and values. */
  datatype Selector = Selector(
    matchLabels: map<string, string>,
    matchExpressions: seq<Requirement>,
    wellSpelt: bool
  )

  predicate ValidRequirement(r: Requirement) {
    match r.op
    case In => r.values != []
    case NotIn => r.values != []
    case Exists => r.values == []
    case DoesNotExist => r.values == []
    case UnknownOperator => false
  }

  /** The selector can be converted; otherwise the reconcilers return an error. */
  predicate Valid(s: Selector) {
    s.wellSpelt && forall r :: r in s.matchExpressions ==> ValidRequirement(r)
  }

  predicate Meets(labels: map<string, string>, r: Requirement) {
    match r.op
    case In => r.key in labels && labels[r.key] in r.values
    case NotIn => r.key !in labels || labels[r.key] !in r.values
    case Exists => r.key in labels
    case DoesNotExist => r.key !in labels
    case UnknownOperator => false
  }

  predicate Matches(s: Selector, labels: map<string, string>) {
    && (forall k :: k in s.matchLabels ==> Meets(labels, Requirement(k, In, [s.matchLabels[k]])))
    && (forall r :: r in s.matchExpressions ==> Meets(labels, r))
  }

  function Select(s: Selector, list: seq<Cluster>): seq<Cluster> {
    if list == [] then []
    else (if Matches(s, list[0].labels) then [list[0]] else []) + Select(s, list[1..])
  }

  function InNamespace(ns: Namespace, list: seq<Cluster>): seq<Cluster> {
    if list == [] then []
    else (if list[0].key.namespace == ns then [list[0]] else []) + InNamespace(ns, list[1..])
  }

  // ----- laws of selection -----

  /** Each cluster is selected as often as it is listed if its labels match, and never otherwise. */
  lemma {:induction false} SelectMultiplicity(s: Selector, list: seq<Cluster>, c: Cluster)
    ensures multiset(Select(s, list))[c] == if Matches(s, c.labels) then multiset(list)[c] else 0
  {
    if list != [] {
      assert list == [list[0]] + list[1..];
      SelectMultiplicity(s, list[1..], c);
    }
  }

  /** The selection is the list with the clusters left out whose labels do not match: it keeps order and repetitions. */
  lemma {:induction false} SelectKeepsOrder(s: Selector, list: seq<Cluster>) returns (at: seq<nat>)
    ensures PickedAt(Select(s, list), list, at)
    ensures forall j: nat :: j in at <==> j < |list| && Matches(s, list[j].labels)
  {
    at := [];
    if list != [] {
      at := SelectKeepsOrder(s, list[1..]);
      at := PickedNext(Select(s, list[1..]), list[1..], at, list[0], Matches(s, list[0].labels));
      assert list == [list[0]] + list[1..];
    }
  }

  lemma {:induction false} NamespaceKeepsOrder(ns: Namespace, list: seq<Cluster>) returns (at: seq<nat>)
    ensures PickedAt(InNamespace(ns, list), list, at)
    ensures forall j: nat :: j in at <==> j < |list| && list[j].key.namespace == ns
  {
    at := [];
    if list != [] {
      at := NamespaceKeepsOrder(ns, list[1..]);
      at := PickedNext(InNamespace(ns, list[1..]), list[1..], at, list[0], list[0].key.namespace == ns);
      assert list == [list[0]] + list[1..];
    }
  }

  lemma SelectIff(s: Selector, list: seq<Cluster>, c: Cluster)
    ensures c in Select(s, list) <==> c in list && Matches(s, c.labels)
  {
    SelectMultiplicity(s, list, c);
    assert c in multiset(list) <==> c in list;
    assert c in multiset(Select(s, list)) <==> c in Select(s, list);
  }

  /** matchLabels on the labels alone: a listed cluster is selected exactly if it has each label with that value. */
  lemma SelectedByLabels(m: map<string, string>, list: seq<Cluster>, c: Cluster)
    ensures c in Select(Selector(m, [], true), list) <==>
            c in list && forall k :: k in m ==> k in c.labels && c.labels[k] == m[k]
  {
    SelectIff(Selector(m, [], true), list, c);
  }

  /** Each operator on the labels alone. A cluster without the label is selected by NotIn. */
  lemma SelectedByOperator(key: string, op: Operator, values: seq<string>, list: seq<Cluster>, c: Cluster)
    ensures var picked := c in Select(Selector(map[], [Requirement(key, op, values)], true), list);
            && (op == In ==> (picked <==> c in list && key in c.labels && c.labels[key] in values))
            && (op == NotIn ==> (picked <==> c in list && (key in c.labels ==> c.labels[key] !in values)))
            && (op == Exists ==> (picked <==> c in list && key in c.labels))
            && (op == DoesNotExist ==> (picked <==> c in list && key !in c.labels))
  {
    var r := Requirement(key, op, values);
    SelectIff(Selector(map[], [r], true), list, c);
    assert r in [r];
  }

  /** All parts of a selector must select the cluster. */
  lemma SelectedByAll(s: Selector, list: seq<Cluster>, c: Cluster)
    ensures c in Select(s, list) <==>
            && c in Select(Selector(s.matchLabels, [], true), list)
            && forall r :: r in s.matchExpressions ==> c in Select(Selector(map[], [r], true), list)
  {
    SelectIff(s, list, c);
    SelectIff(Selector(s.matchLabels, [], true), list, c);
    forall r | r in s.matchExpressions
      ensures c in Select(Selector(map[], [r], true), list) <==> c in list && Meets(c.labels, r)
    {
      SelectIff(Selector(map[], [r], true), list, c);
      assert r in [r];
    }
  }

  /** The addon controller lists a namespace and filters; the policy controller has the server do both. With the
      filters in the other order the result is the same list. */
  lemma {:induction false} FiltersCommute(s: Selector, ns: Namespace, list: seq<Cluster>)
    ensures Select(s, InNamespace(ns, list)) == InNamespace(ns, Select(s, list))
  {
    if list != [] {
      FiltersCommute(s, ns, list[1..]);
      var x, y := InNamespace(ns, list[1..]), Select(s, list[1..]);
      assert [list[0]] + x != [] && ([list[0]] + x)[1..] == x;
      assert [list[0]] + y != [] && ([list[0]] + y)[1..] == y;
      assert [] + x == x && [] + y == y;
    }
  }

  /** matchLabels means what its translation to In requirements means. */
  lemma MatchLabelsAsIn(s: Selector, extra: seq<Requirement>, labels: map<string, string>)
    requires forall r :: r in extra <==> exists k :: k in s.matchLabels && r == Requirement(k, In, [s.matchLabels[k]])
    ensures var t := Selector(map[], s.matchExpressions + extra, s.wellSpelt);
            && (Matches(t, labels) <==> Matches(s, labels))
            && (Valid(t) <==> Valid(s))
  {
    var t := Selector(map[], s.matchExpressions + extra, s.wellSpelt);
    forall k | k in s.matchLabels
      ensures Requirement(k, In, [s.matchLabels[k]]) in t.matchExpressions
    {
      assert Requirement(k, In, [s.matchLabels[k]]) in extra;
    }
    if Valid(t) {
      forall r | r in s.matchExpressions
        ensures ValidRequirement(r)
      {
        assert r in t.matchExpressions;
      }
    }
    if Matches(t, labels) {
      forall r | r in s.matchExpressions
        ensures Meets(labels, r)
      {
        assert r in t.matchExpressions;
      }
    }
  }

  /** A further requirement splits the selection into those that meet it and those that do not; nothing is added. */
  lemma {:induction false} RequirementShrinks(s: Selector, r: Requirement, list: seq<Cluster>, c: Cluster)
    ensures var t := s.(matchExpressions := s.matchExpressions + [r]);
            multiset(Select(t, list))[c] == if Meets(c.labels, r) then multiset(Select(s, list))[c] else 0
  {
    var t := s.(matchExpressions := s.matchExpressions + [r]);
    SelectMultiplicity(s, list, c);
    SelectMultiplicity(t, list, c);
    assert Matches(t, c.labels) ==> Matches(s, c.labels) by {
      assert forall q :: q in s.matchExpressions ==> q in t.matchExpressions;
    }
    assert Matches(t, c.labels) ==> Meets(c.labels, r) by {
      assert r in t.matchExpressions;
    }
  }

  predicate Opposite(a: Operator, b: Operator) {
    (a == In && b == NotIn) || (a == Exists && b == DoesNotExist)
  }

  /** In and NotIn, and Exists and DoesNotExist, part every list in two; an absent label counts as NotIn. */
  lemma OppositesPartition(key: string, values: seq<string>, a: Operator, b: Operator, list: seq<Cluster>)
    requires Opposite(a, b)
    ensures multiset(Select(Selector(map[], [Requirement(key, a, values)], true), list))
          + multiset(Select(Selector(map[], [Requirement(key, b, values)], true), list)) == multiset(list)
  {
    var s := Selector(map[], [Requirement(key, a, values)], true);
    var t := Selector(map[], [Requirement(key, b, values)], true);
    forall c: Cluster
      ensures multiset(Select(s, list))[c] + multiset(Select(t, list))[c] == multiset(list)[c]
    {
      SelectMultiplicity(s, list, c);
      SelectMultiplicity(t, list, c);
      assert Matches(s, c.labels) <==> Meets(c.labels, s.matchExpressions[0]);
      assert Matches(t, c.labels) <==> Meets(c.labels, t.matchExpressions[0]);
    }
    assert multiset(Select(s, list)) + multiset(Select(t, list)) == multiset(list);
  }

  // ----- watch maps -----

  /** A KubewardenPolicy or KubewardenAddon as the watch maps see it. */
  datatype Owner = Owner(namespace: Namespace, name: string, selector: Selector)

  datatype Request = Request(namespace: Namespace, name: string)

  function RequestFor(o: Owner): Request {
    Request(o.namespace, o.name)
  }

  /** getMatchingClusters: no clusters but an error for a selector that cannot be converted. */
  function MatchingClusters(o: Owner, clusters: seq<Cluster>): Option<seq<Cluster>> {
    if Valid(o.selector) then Some(Select(o.selector, InNamespace(o.namespace, clusters))) else None
  }

  /** The policies that a cluster event enqueues, in listing order. */
  function PolicyRequests(policies: seq<Owner>, c: Cluster): seq<Request> {
    if policies == [] then []
    else
      var p := policies[0];
      (if p.namespace == c.key.namespace && Valid(p.selector) && Matches(p.selector, c.labels)
       then [RequestFor(p)] else []) + PolicyRequests(policies[1..], c)
  }

  lemma PolicyRequestsFrom(policies: seq<Owner>, i: nat, c: Cluster)
    requires i < |policies|
    ensures var p := policies[i];
            PolicyRequests(policies[i..], c) ==
            (if p.namespace == c.key.namespace && Valid(p.selector) && Matches(p.selector, c.labels)
             then [RequestFor(p)] else []) + PolicyRequests(policies[i + 1..], c)
  {
    assert policies[i..][1..] == policies[i + 1..];
  }

  function AddonRequests(addons: seq<Owner>): seq<Request> {
    if addons == [] then [] else [RequestFor(addons[0])] + AddonRequests(addons[1..])
  }

  /** No two policies share namespace and name. */
  ghost predicate DistinctOwners(owners: seq<Owner>) {
    forall i, j :: 0 <= i < j < |owners| ==>
      owners[i].namespace != owners[j].namespace || owners[i].name != owners[j].name
  }

  lemma {:induction false} RequestedIff(policies: seq<Owner>, c: Cluster, q: Request)
    ensures q in PolicyRequests(policies, c) <==>
            exists p :: p in policies && q == Request(p.namespace, p.name)
                        && p.namespace == c.key.namespace && Valid(p.selector) && Matches(p.selector, c.labels)
  {
    if policies != [] {
      RequestedIff(policies[1..], c, q);
      assert policies == [policies[0]] + policies[1..];
    }
  }

  lemma {:induction false} InNamespaceIff(ns: Namespace, list: seq<Cluster>, c: Cluster)
    ensures c in InNamespace(ns, list) <==> c in list && c.key.namespace == ns
  {
    if list != [] {
      InNamespaceIff(ns, list[1..], c);
      assert list == [list[0]] + list[1..];
    }
  }

  /** The watch map is the inverse of the selection: an event for a listed cluster enqueues exactly the policies
      that select this cluster. */
  lemma WatchInvertsSelection(policies: seq<Owner>, p: Owner, clusters: seq<Cluster>, c: Cluster)
    requires DistinctOwners(policies) && p in policies && c in clusters
    ensures Request(p.namespace, p.name) in PolicyRequests(policies, c) <==>
            MatchingClusters(p, clusters).Some? && c in MatchingClusters(p, clusters).value
  {
    RequestedIff(policies, c, Request(p.namespace, p.name));
    InNamespaceIff(p.namespace, clusters, c);
    SelectIff(p.selector, InNamespace(p.namespace, clusters), c);
    var i :| 0 <= i < |policies| && policies[i] == p;
    forall o | o in policies && Request(o.namespace, o.name) == Request(p.namespace, p.name)
      ensures o == p
    {
      var j :| 0 <= j < |policies| && policies[j] == o;
    }
  }

  lemma {:induction false} InNamespaceConcat(ns: Namespace, a: seq<Cluster>, b: seq<Cluster>)
    ensures InNamespace(ns, a + b) == InNamespace(ns, a) + InNamespace(ns, b)
  {
    if a == [] {
      assert a + b == b;
    } else {
      assert (a + b)[1..] == a[1..] + b && (a + b)[0] == a[0];
      InNamespaceConcat(ns, a[1..], b);
      var h := if a[0].key.namespace == ns then [a[0]] else [];
      assert h + (InNamespace(ns, a[1..]) + InNamespace(ns, b)) == (h + InNamespace(ns, a[1..])) + InNamespace(ns, b);
    }
  }

  lemma {:induction false} SelectConcat(s: Selector, a: seq<Cluster>, b: seq<Cluster>)
    ensures Select(s, a + b) == Select(s, a) + Select(s, b)
  {
    if a == [] {
      assert a + b == b;
    } else {
      assert (a + b)[1..] == a[1..] + b && (a + b)[0] == a[0];
      SelectConcat(s, a[1..], b);
      var h := if Matches(s, a[0].labels) then [a[0]] else [];
      assert h + (Select(s, a[1..]) + Select(s, b)) == (h + Select(s, a[1..])) + Select(s, b);
    }
  }

  /** A change of one cluster, old to new, in a list. An addition has no old version, a removal no new one. */
  function Change(before: seq<Cluster>, version: Option<Cluster>, after: seq<Cluster>): seq<Cluster> {
    before + (if version.Some? then [version.value] else []) + after
  }

  function Enqueued(policies: seq<Owner>, version: Option<Cluster>): seq<Request> {
    if version.Some? then PolicyRequests(policies, version.value) else []
  }

  lemma SelectOneChange(p: Owner, before: seq<Cluster>, version: Option<Cluster>, after: seq<Cluster>)
    requires Valid(p.selector)
    ensures MatchingClusters(p, Change(before, version, after)).value ==
            Select(p.selector, InNamespace(p.namespace, before))
            + (if version.Some? && version.value.key.namespace == p.namespace &&
                  Matches(p.selector, version.value.labels)
               then [version.value] else [])
            + Select(p.selector, InNamespace(p.namespace, after))
  {
    var mid := if version.Some? then [version.value] else [];
    var ns := p.namespace;
    InNamespaceConcat(ns, before + mid, after);
    InNamespaceConcat(ns, before, mid);
    SelectConcat(p.selector, InNamespace(ns, before) + InNamespace(ns, mid), InNamespace(ns, after));
    SelectConcat(p.selector, InNamespace(ns, before), InNamespace(ns, mid));
    if version.Some? {
      assert mid[1..] == [];
      assert InNamespace(p.namespace, mid) ==
             if version.value.key.namespace == p.namespace then [version.value] else [];
    }
  }

  /** No change of a cluster is missed: a policy whose matching clusters differ before and after the change, in
      membership, order or any field, is enqueued by the old or by the new version. */
  lemma NoChangeMissed(policies: seq<Owner>, p: Owner, before: seq<Cluster>, old': Option<Cluster>,
                       new': Option<Cluster>, after: seq<Cluster>)
    requires DistinctOwners(policies) && p in policies
    requires MatchingClusters(p, Change(before, old', after)) != MatchingClusters(p, Change(before, new', after))
    ensures Request(p.namespace, p.name) in Enqueued(policies, old') ||
            Request(p.namespace, p.name) in Enqueued(policies, new')
  {
    SelectOneChange(p, before, old', after);
    SelectOneChange(p, before, new', after);
    if old'.Some? {
      RequestedIff(policies, old'.value, Request(p.namespace, p.name));
    }
    if new'.Some? {
      RequestedIff(policies, new'.value, Request(p.namespace, p.name));
    }
  }

  /** The addon map enqueues every addon, so in particular each one that selects the cluster, in listing order. */
  lemma {:induction false} AddonMapEnqueuesAll(addons: seq<Owner>)
    ensures |AddonRequests(addons)| == |addons|
    ensures forall i :: 0 <= i < |addons| ==> AddonRequests(addons)[i] == Request(addons[i].namespace, addons[i].name)
  {
    if addons != [] {
      AddonMapEnqueuesAll(addons[1..]);
    }
  }

  /** The policy map enqueues, once each and in listing order, the policies in the cluster's namespace that have a valid
      selector matching its labels. */
  lemma {:induction false} PolicyMapKeepsOrder(policies: seq<Owner>, c: Cluster) returns (at: seq<nat>)
    ensures PickedAt(PolicyRequests(policies, c), Map((o: Owner) => Request(o.namespace, o.name), policies), at)
    ensures forall j: nat :: j in at <==>
      j < |policies| && policies[j].namespace == c.key.namespace
      && Valid(policies[j].selector) && Matches(policies[j].selector, c.labels)
  {
    at := [];
    if policies != [] {
      var p, rest := policies[0], policies[1..];
      var name := (o: Owner) => Request(o.namespace, o.name);
      at := PolicyMapKeepsOrder(rest, c);
      at := PickedNext(PolicyRequests(rest, c), Map(name, rest), at, name(p),
                       p.namespace == c.key.namespace && Valid(p.selector) && Matches(p.selector, c.labels));
      assert Map(name, policies) == [name(p)] + Map(name, rest);
    }
  }

  /** What the policy controller works on: an error exactly for a selector with a misspelt part, an operator that is not
      one of the four, In or NotIn without values, or one of the others with values; else the listed clusters of
      the policy's namespace that the selector matches. */
  lemma MatchingClustersIff(o: Owner, clusters: seq<Cluster>)
    ensures MatchingClusters(o, clusters).None? <==>
      || !o.selector.wellSpelt
      || exists r :: r in o.selector.matchExpressions &&
           (|| r.op == UnknownOperator
            || ((r.op == In || r.op == NotIn) && r.values == [])
            || ((r.op == Exists || r.op == DoesNotExist) && r.values != []))
    ensures MatchingClusters(o, clusters).Some? ==>
      forall c :: c in MatchingClusters(o, clusters).value <==>
        c.key.namespace == o.namespace && c in Select(o.selector, clusters)
  {
    if MatchingClusters(o, clusters).Some? {
      forall c
        ensures c in MatchingClusters(o, clusters).value <==>
          c.key.namespace == o.namespace && c in Select(o.selector, clusters)
      {
        InNamespaceIff(o.namespace, clusters, c);
        SelectIff(o.selector, InNamespace(o.namespace, clusters), c);
        SelectIff(o.selector, clusters, c);
      }
    }
  }

  /** And they keep order and repetitions. */
  lemma {:induction false} MatchingKeepsOrder(s: Selector, ns: Namespace, clusters: seq<Cluster>) returns (at: seq<nat>)
    ensures PickedAt(Select(s, InNamespace(ns, clusters)), clusters, at)
    ensures forall j: nat :: j in at <==>
      j < |clusters| && clusters[j].key.namespace == ns && Matches(s, clusters[j].labels)
  {
    at := [];
    if clusters != [] {
      var c, rest := clusters[0], clusters[1..];
      at := MatchingKeepsOrder(s, ns, rest);
      at := PickedNext(Select(s, InNamespace(ns, rest)), rest, at, c, c.key.namespace == ns && Matches(s, c.labels));
      assert clusters == [c] + rest;
      assert ([c] + InNamespace(ns, rest))[1..] == InNamespace(ns, rest);
      assert [] + InNamespace(ns, rest) == InNamespace(ns, rest);
      assert [] + Select(s, InNamespace(ns, rest)) == Select(s, InNamespace(ns, rest));
    }
  }
}
