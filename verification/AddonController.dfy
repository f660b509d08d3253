/** The addon controller as it runs: loops over mutable servers, proved against the pass functions. */
module AddonController {
  import opened Api
  import opened Remote
  import opened Manifest
  import opened Install
  import opened Fleets
  import Labels
  import Addon = AddonPass

  class KubewardenAddon {
    const namespace: Namespace
    const name: string
    var selector: Labels.Selector
    var version: string
    var ready: bool
    var matchingClusters: Slice<ObjectReference>

    constructor (namespace: Namespace, name: string, selector: Labels.Selector, version: string)
      ensures this.namespace == namespace && this.name == name && this.selector == selector && this.version == version
      ensures !ready && matchingClusters == Nil
    {
      this.namespace, this.name, this.selector, this.version := namespace, name, selector, version;
      ready, matchingClusters := false, Nil;
    }

    method SetMatchingClusters(list: seq<Cluster>)
      modifies this`matchingClusters
      ensures matchingClusters.Of? && |matchingClusters.items| == |list|
      ensures forall i :: 0 <= i < |list| ==>
        matchingClusters.items[i] ==
        ObjectReference(kind := list[i].kind, apiVersion := list[i].apiVersion, key := list[i].key)
      ensures matchingClusters == Of(Map(Reference, list))
    {
      var references := [];
      for i := 0 to |list|
        invariant references == Map(Reference, list[..i])
      {
        references := references + [Reference(list[i])];
      }
      assert list[..|list|] == list;
      matchingClusters := Of(references);
    }
  }

  /** The error of an invalid selector, or the clusters whose labels match. A selector is invalid if the library finds
      it misspelt, or if an operator is unknown, or has values where it must have none or none where it must have
      some. */
  method SelectClusters(clusters: seq<Cluster>, selector: Labels.Selector) returns (selected: Option<seq<Cluster>>)
    ensures selected == if Labels.Valid(selector) then Some(Labels.Select(selector, clusters)) else None
    ensures selected.None? <==>
      || !selector.wellSpelt
      || exists r :: r in selector.matchExpressions &&
           (|| r.op == Labels.UnknownOperator
            || ((r.op == Labels.In || r.op == Labels.NotIn) && r.values == [])
            || ((r.op == Labels.Exists || r.op == Labels.DoesNotExist) && r.values != []))
  {
    if !Labels.Valid(selector) {
      return None;
    }
    var result := [];
    for i := 0 to |clusters|
      invariant result + Labels.Select(selector, clusters[i..]) == Labels.Select(selector, clusters)
    {
      var more := [];
      if Labels.Matches(selector, clusters[i].labels) {
        more := [clusters[i]];
      }
      assert clusters[i..][1..] == clusters[i + 1..];
      Regroup(result, more, Labels.Select(selector, clusters[i + 1..]));
      result := result + more;
    }
    assert clusters[|clusters|..] == [] && result + [] == result;
    selected := Some(result);
  }

  /** Every addon, whatever the cluster. A failed listing enqueues nothing. */
  method ClusterToKubewardenAddon(addons: Option<seq<Labels.Owner>>) returns (requests: seq<Labels.Request>)
    ensures requests == if addons.Some? then Labels.AddonRequests(addons.value) else []
    ensures addons.Some? ==>
      && |requests| == |addons.value|
      && forall i :: 0 <= i < |requests| ==>
           requests[i] == Labels.Request(addons.value[i].namespace, addons.value[i].name)
  {
    requests := [];
    if addons.None? {
      return;
    }
    for i := 0 to |addons.value|
      invariant requests + Labels.AddonRequests(addons.value[i..]) == Labels.AddonRequests(addons.value)
    {
      requests := requests + [Labels.RequestFor(addons.value[i])];
    }
    assert addons.value[|addons.value|..] == [] && requests + [] == requests;
    Labels.AddonMapEnqueuesAll(addons.value);
  }

  /** Between two moments the client has carried out the calls `cs` with verdict `ok`, and done nothing else. */
  twostate predicate Carried(c: RemoteClient, cs: seq<Call>, ok: bool)
    reads c, c.server
  {
    var r := Run(cs, c.faults, old(c.calls), old(c.server.objects));
    && c.server.objects == r.store
    && ok == r.ok
    && (ok ==> c.calls == old(c.calls) + |cs|)
  }

  method CreateKubewardenNamespace(c: RemoteClient) returns (ok: bool)
    modifies c`calls, c.server
    ensures Carried(c, [Call.Create(NAMESPACE_KEY, NAMESPACE_OBJ)], ok)
  {
    var r := c.Create(NAMESPACE_KEY, NAMESPACE_OBJ);
    ok := r == Done || r == AlreadyExists;
    assert [Call.Create(NAMESPACE_KEY, NAMESPACE_OBJ)][1..] == [];
  }

  /** Creates one object unless it exists already. */
  method ApplyObject(c: RemoteClient, k: ObjKey, o: Obj) returns (ok: bool)
    modifies c`calls, c.server
    ensures Outcome(c.server.objects, ok) == Exec(Call.Create(k, o), c.faults(old(c.calls)), old(c.server.objects))
    ensures c.calls == old(c.calls) + 1
  {
    var r := c.Create(k, o);
    ok := r == Done || r == AlreadyExists;
  }

  /** Creates the objects of a manifest one by one; a document without a kind ends the file quietly. */
  method ApplyManifest(c: RemoteClient, docs: seq<Doc>) returns (ok: bool)
    modifies c`calls, c.server
    ensures Carried(c, Calls(docs), ok)
  {
    ghost var f := c.faults;
    ghost var all, end := Run(Calls(docs), f, c.calls, c.server.objects), c.calls + |Calls(docs)|;
    var i := 0;
    assert docs[0..] == docs;
    ghost var n, t := c.calls, c.server.objects;
    while i < |docs|
      invariant 0 <= i <= |docs| && n == c.calls && t == c.server.objects
      invariant Applying(docs, i, f, n, t, all, end)
    {
      if !docs[i].Object? {
        // a stream that cannot be read on and a kind that cannot be decoded are errors
        ApplyStops(docs, i, f, n, t, all, end);
        return docs[i].Kindless?;
      }
      ApplyNext(docs, i, f, n, t, all, end);
      ok := ApplyObject(c, docs[i].key, docs[i].obj);
      n, t := c.calls, c.server.objects;
      if !ok {
        return;
      }
      i := i + 1;
    }
    ApplyStops(docs, i, f, n, t, all, end);
    ok := true;
  }

  /** The release is fetched, then its files are applied in turn. */
  method InstallKubewardenCRDs(c: RemoteClient, files: seq<seq<Doc>>) returns (ok: bool)
    modifies c`calls, c.server
    ensures Carried(c, [Call.Fetch] + FileCalls(files), ok)
  {
    ghost var all := [Call.Fetch] + FileCalls(files);
    assert all[1..] == FileCalls(files);
    ok := c.Fetch();
    if !ok {
      return;
    }
    var i := 0;
    while i < |files|
      invariant 0 <= i <= |files|
      invariant Run(all, c.faults, old(c.calls), old(c.server.objects)) ==
                Run(FileCalls(files[i..]), c.faults, c.calls, c.server.objects)
      invariant |all| + old(c.calls) == |FileCalls(files[i..])| + c.calls
    {
      RunConcat(Calls(files[i]), FileCalls(files[i + 1..]), c.faults, c.calls, c.server.objects);
      assert files[i..][1..] == files[i + 1..];
      ok := ApplyManifest(c, files[i]);
      if !ok {
        return;
      }
      i := i + 1;
    }
    assert files[i..] == [];
  }

  /** installKubewardenController and installKubewardenDefaults: render a chart, apply the manifest. */
  method InstallChart(c: RemoteClient, docs: seq<Doc>) returns (ok: bool)
    modifies c`calls, c.server
    ensures Carried(c, [Call.Fetch] + Calls(docs), ok)
  {
    assert ([Call.Fetch] + Calls(docs))[1..] == Calls(docs);
    ok := c.Fetch();
    if ok {
      ok := ApplyManifest(c, docs);
    }
  }

  /** Two patches must succeed; the audit scanner's may fail. */
  method ApplyControlPlaneTolerations(c: RemoteClient) returns (ok: bool)
    modifies c`calls, c.server
    ensures Carried(c, TOLERATIONS, ok)
  {
    ghost var f, at := c.faults, c.calls;
    ghost var second, third := Call.Tolerate(SERVER_KEY, false), Call.Tolerate(AUDIT_KEY, true);
    assert TOLERATIONS == [Call.Tolerate(CONTROLLER_KEY, false)] + ([second] + ([third] + []));
    RunCons(Call.Tolerate(CONTROLLER_KEY, false), [second] + ([third] + []), f, at, c.server.objects);
    var r := c.Tolerate(CONTROLLER_KEY);
    if r != Done {
      return false;
    }
    RunCons(second, [third] + [], f, at + 1, c.server.objects);
    r := c.Tolerate(SERVER_KEY);
    if r != Done {
      return false;
    }
    RunCons(third, [], f, at + 2, c.server.objects);
    r := c.Tolerate(AUDIT_KEY);
    ok := true;
  }

  function FirstHalf(b: Bundle): seq<Call> {
    [Call.Create(NAMESPACE_KEY, NAMESPACE_OBJ)] + ([Call.Fetch] + FileCalls(b.crds))
  }

  function SecondHalf(b: Bundle): seq<Call> {
    ([Call.Fetch] + Calls(b.controller)) + ([Call.Fetch] + Calls(b.defaults)) + TOLERATIONS
  }

  /** Namespace and CRDs. */
  method InstallFirstHalf(c: RemoteClient, b: Bundle) returns (ok: bool)
    modifies c`calls, c.server
    ensures Carried(c, FirstHalf(b), ok)
  {
    ghost var namespace, crds := [Call.Create(NAMESPACE_KEY, NAMESPACE_OBJ)], [Call.Fetch] + FileCalls(b.crds);
    RunConcat(namespace, crds, c.faults, c.calls, c.server.objects);
    ok := CreateKubewardenNamespace(c);
    if ok {
      ok := InstallKubewardenCRDs(c, b.crds);
    }
  }

  /** Controller, defaults and tolerations. */
  method InstallSecondHalf(c: RemoteClient, b: Bundle) returns (ok: bool)
    modifies c`calls, c.server
    ensures Carried(c, SecondHalf(b), ok)
  {
    ghost var f, controller, defaults := c.faults, [Call.Fetch] + Calls(b.controller), [Call.Fetch] + Calls(b.defaults);
    RunConcat(controller + defaults, TOLERATIONS, f, c.calls, c.server.objects);
    RunConcat(controller, defaults, f, c.calls, c.server.objects);
    ok := InstallChart(c, b.controller);
    if ok {
      ok := InstallChart(c, b.defaults);
    }
    if ok {
      ok := ApplyControlPlaneTolerations(c);
    }
  }

  lemma PlanHalves(b: Bundle)
    ensures Plan(b) == [Call.Fetch] + (FirstHalf(b) + SecondHalf(b))
  {
  }

  /** One installation: connect, then stage by stage, giving up at the first error. */
  method InstallOnServer(server: WorkloadCluster, b: Bundle, f: Faults) returns (ok: bool)
    modifies server
    ensures Outcome(server.objects, ok) == Run(Plan(b), f, 0, old(server.objects))
  {
    PlanHalves(b);
    RunCons(Call.Fetch, FirstHalf(b) + SecondHalf(b), f, 0, server.objects);
    RunConcat(FirstHalf(b), SecondHalf(b), f, 1, server.objects);
    if f(0) != Fine {
      return false;
    }
    var c := new RemoteClient(server, f);
    ok := InstallFirstHalf(c, b);
    if ok {
      ok := InstallSecondHalf(c, b);
    }
  }

  class Reconciler {
    const fleet: Fleet
    const catalog: Catalog

    constructor (fleet: Fleet, catalog: Catalog)
      ensures this.fleet == fleet && this.catalog == catalog
    {
      this.fleet, this.catalog := fleet, catalog;
    }

    method InstallOnCluster(k: ClusterKey, b: Bundle, f: Faults) returns (ok: bool)
      requires fleet.Valid()
      modifies fleet`clusters, fleet.servers.Values
      ensures fleet.World() == Addon.InstallOn(old(fleet.World()), b, k, f).world
      ensures ok <==> Addon.InstallOn(old(fleet.World()), b, k, f).end == Addon.Finished
    {
      if k !in fleet.servers {
        return false;
      }
      ok := InstallOnServer(fleet.servers[k], b, f);
      fleet.OnlyServer(k);
      if ok {
        ok := fleet.Annotate(k, f(|Plan(b)|));
      }
    }

    /** The loop over the selected clusters with its early returns. */
    method InstallOnClusters(list: seq<Cluster>, b: Bundle, f: Addon.PassFaults) returns (end: Addon.End)
      requires fleet.Valid()
      modifies fleet`clusters, fleet.servers.Values
      ensures Addon.PassEnd(fleet.World(), end) == Addon.Loop(old(fleet.World()), b, list, f)
    {
      var i := 0;
      while i < |list|
        invariant 0 <= i <= |list|
        invariant Addon.Loop(old(fleet.World()), b, list, f) == Addon.Loop(fleet.World(), b, list[i..], f)
      {
        var c := list[i];
        assert list[i..][1..] == list[i + 1..];
        if !c.controlPlaneReady && !c.readyCondition {
          return Addon.NotReady;
        }
        if HasAnnotation(c, INSTALLED) {
          return Addon.AlreadyInstalled;
        }
        var ok := InstallOnCluster(c.key, b, f(c.key));
        if !ok {
          return Addon.Failed;
        }
        i := i + 1;
      }
      end := Addon.Finished;
    }

    /** The answer to the work queue. */
    static function Answer(end: Addon.End): (r: Reconciled)
      ensures r == Settled <==> end == Addon.Finished || end == Addon.AlreadyInstalled
      ensures r == RequeueAfter(60) <==> end == Addon.NotReady
      ensures r == Error <==> end == Addon.Failed
    {
      match end
      case Finished => Settled
      case AlreadyInstalled => Settled
      case NotReady => RequeueAfter(REQUEUE_SECONDS)
      case Failed => Error
    }

    /** The end of a pass that got through: Ready is set and patched; a failed patch is only logged. */
    method ReportReady(addon: KubewardenAddon, list: seq<Cluster>, f: Fault)
      modifies fleet`addonReady, addon`ready
      ensures addon.ready == Addon.ReadyValue(list)
      ensures fleet.addonReady == ReadyAfter(old(fleet.addonReady), addon, old(addon.ready), list, Addon.Finished, f)
    {
      var snapshot := addon.ready;
      addon.ready := |list| > 0;
      fleet.PatchAddonReady(Labels.Request(addon.namespace, addon.name), snapshot, addon.ready, f);
    }

    ghost function ReadyAfter(server: map<Labels.Request, bool>, addon: KubewardenAddon, snapshot: bool,
                              list: seq<Cluster>, end: Addon.End, f: Fault): map<Labels.Request, bool> {
      var o := Labels.Request(addon.namespace, addon.name);
      if o in server then server[o := Addon.ReadyOnServer(server[o], snapshot, list, end, f)] else server
    }

    /** The pass over a list that was selected. */
    method ReconcileSelected(addon: KubewardenAddon, list: seq<Cluster>, f: Addon.PassFaults, statusFault: Fault)
      returns (end: Addon.End)
      requires fleet.Valid()
      modifies fleet`clusters, fleet`addonReady, fleet.servers.Values, addon`ready, addon`matchingClusters
      ensures Addon.PassEnd(fleet.World(), end) ==
              Addon.Loop(old(fleet.World()), BundleFor(catalog, addon.version), list, f)
      ensures addon.matchingClusters == Of(Map(Reference, list))
      ensures addon.ready == if end == Addon.Finished then Addon.ReadyValue(list) else old(addon.ready)
      ensures fleet.addonReady == ReadyAfter(old(fleet.addonReady), addon, old(addon.ready), list, end, statusFault)
    {
      addon.SetMatchingClusters(list);
      end := InstallOnClusters(list, BundleFor(catalog, addon.version), f);
      if end == Addon.Finished {
        ReportReady(addon, list, statusFault);
      } else {
        assert fleet.addonReady == ReadyAfter(old(fleet.addonReady), addon, addon.ready, list, end, statusFault);
      }
    }

    /** `listed` is what the cache lists, if it does: clusters of any age and in any order. */
    method ReconcileNormal(addon: KubewardenAddon, listed: Option<seq<Cluster>>, f: Addon.PassFaults,
                           statusFault: Fault)
      returns (r: Reconciled)
      requires fleet.Valid()
      modifies fleet`clusters, fleet`addonReady, fleet.servers.Values, addon`ready, addon`matchingClusters
      ensures listed.None? || !Labels.Valid(addon.selector) ==>
        && r == Error && fleet.World() == old(fleet.World()) && fleet.addonReady == old(fleet.addonReady)
        && addon.ready == old(addon.ready) && addon.matchingClusters == old(addon.matchingClusters)
      ensures listed.Some? && Labels.Valid(addon.selector) ==>
        var list := Labels.Select(addon.selector, Labels.InNamespace(addon.namespace, listed.value));
        var bundle := Bundle(catalog.crds(if addon.version == "" then KUBEWARDEN_VERSION else addon.version),
                             catalog.controller(addon.version), catalog.defaults(addon.version));
        var e := Addon.Loop(old(fleet.World()), bundle, list, f);
        && fleet.World() == e.world
        && r == (match e.end
                 case Finished => Settled
                 case AlreadyInstalled => Settled
                 case NotReady => RequeueAfter(60)
                 case Failed => Error)
        && addon.matchingClusters == Of(Map(Reference, list))
        && addon.ready == (if e.end == Addon.Finished then list != [] else old(addon.ready))
        && fleet.addonReady.Keys == old(fleet.addonReady).Keys
        && forall o :: o in fleet.addonReady ==>
             fleet.addonReady[o] ==
             if o.namespace == addon.namespace && o.name == addon.name && e.end == Addon.Finished
                && statusFault != Refused && addon.ready != old(addon.ready)
             then addon.ready else old(fleet.addonReady)[o]
    {
      if listed.None? {
        return Error;
      }
      var selected := SelectClusters(Labels.InNamespace(addon.namespace, listed.value), addon.selector);
      if selected.None? {
        return Error;
      }
      var end := ReconcileSelected(addon, selected.value, f, statusFault);
      r := Answer(end);
    }
  }
}
