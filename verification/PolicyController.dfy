/** The policy webhook and the policy controller as they run, proved against the functions. */
module PolicyController {
  import opened Api
  import opened Remote
  import opened Admission
  import opened Fleets
  import Labels
  import Policies = PolicyPass

  class KubewardenPolicy {
    const namespace: Namespace
    const name: string
    var selector: Labels.Selector
    var spec: PolicySpec
    var status: Policies.Status

    constructor (namespace: Namespace, name: string, selector: Labels.Selector, spec: PolicySpec)
      ensures this.namespace == namespace && this.name == name && this.selector == selector && this.spec == spec
      ensures status == Policies.Status(false, Nil, Nil)
    {
      this.namespace, this.name, this.selector, this.spec := namespace, name, selector, spec;
      status := Policies.Status(false, Nil, Nil);
    }

    /** The defaulting webhook. */
    method Default()
      modifies this`spec
      ensures spec == Defaulted(old(spec), name)
    {
      if spec.policyType == "" {
        spec := spec.(policyType := "ClusterAdmissionPolicy");
      }
      if spec.policyServer == "" {
        spec := spec.(policyServer := "default");
      }
      if spec.failurePolicy == "" {
        spec := spec.(failurePolicy := "Fail");
      }
      if spec.policyName == "" {
        spec := spec.(policyName := name);
      }
      if spec.policyType == "AdmissionPolicy" && spec.targetNamespace == "" {
        spec := spec.(targetNamespace := "default");
      }
    }

    method SetMatchingClusters(list: seq<Cluster>)
      modifies this`status
      ensures status == old(status).(matchingClusters := Of(Map(Reference, list)))
      ensures forall i :: 0 <= i < |list| ==>
        status.matchingClusters.Items()[i] ==
        ObjectReference(kind := list[i].kind, apiVersion := list[i].apiVersion, key := list[i].key)
    {
      var references := [];
      for i := 0 to |list|
        invariant references == Map(Reference, list[..i])
        invariant status == old(status)
      {
        references := references + [Reference(list[i])];
      }
      assert list[..|list|] == list;
      status := status.(matchingClusters := Of(references));
    }
  }

  /** The validating webhook: the scan over rules and operations with its early returns. */
  method Validate(p: PolicySpec) returns (v: Verdict)
    ensures Judges(p, v)
  {
    if p.moduleRef == "" {
      return NoModule;
    }
    var rules := p.rules.Items();
    if |rules| == 0 {
      return NoRules;
    }
    for i := 0 to |rules|
      invariant forall j :: 0 <= j < i ==> WellFormed(rules[j])
    {
      var r := rules[i];
      if |r.apiVersions.Items()| == 0 {
        return BadRule(i, NoApiVersions);
      }
      if |r.resources.Items()| == 0 {
        return BadRule(i, NoResources);
      }
      var ops := r.operations.Items();
      if |ops| == 0 {
        return BadRule(i, NoOperations);
      }
      for j := 0 to |ops|
        invariant forall m :: 0 <= m < j ==> ops[m] in OPERATIONS
      {
        if ops[j] !in OPERATIONS {
          assert FirstInvalid(ops, j);
          return BadRule(i, InvalidOperation(ops[j]));
        }
      }
      assert WellFormed(r);
    }
    if p.policyType == "AdmissionPolicy" && p.targetNamespace == "" {
      return NoTargetNamespace;
    }
    v := Admitted(p.policyType == "AdmissionPolicy");
  }

  method ConvertAll(ops: Slice<string>) returns (result: Slice<string>)
    ensures result == ConvertOperations(ops)
  {
    var converted: seq<string> := [];
    for i := 0 to |ops.Items()|
      invariant converted == ops.Items()[..i]
    {
      converted := converted + [ops.Items()[i]];
    }
    assert ops.Items()[..|ops.Items()|] == ops.Items();
    result := Of(converted);
  }

  method BuildPolicySpec(p: PolicySpec) returns (s: RemoteSpec)
    ensures s == BuildSpec(p)
  {
    var rules: Slice<RemoteRule> := Nil;
    var source := p.rules.Items();
    for i := 0 to |source|
      invariant rules == Appended(Map(ConvertRule, source[..i]))
    {
      var ops := ConvertAll(source[i].operations);
      rules := Of(rules.Items() + [RemoteRule(ops, source[i].apiGroups, source[i].apiVersions, source[i].resources,
                                              ConvertScope(source[i].scope))]);
      assert Map(ConvertRule, source[..i + 1]) == Map(ConvertRule, source[..i]) + [ConvertRule(source[i])];
    }
    assert source[..|source|] == source;
    var failurePolicy := if p.failurePolicy != "" then Some(p.failurePolicy) else None;
    var settings := if |p.settings.Items()| > 0 then p.settings else Nil;
    var conditions: Slice<MatchCondition> := Nil;
    var given := p.matchConditions.Items();
    for i := 0 to |given|
      invariant conditions == Appended(given[..i])
    {
      conditions := Of(conditions.Items() + [MatchCondition(given[i].name, given[i].expression)]);
      assert given[..i + 1] == given[..i] + [given[i]];
    }
    assert given[..|given|] == given;
    s := RemoteSpec(p.policyServer, p.moduleRef, p.mutating, rules, failurePolicy, settings, conditions);
  }

  /** The policies whose valid selector matches the cluster. A failed listing enqueues nothing. */
  method ClusterToKubewardenPolicy(policies: Option<seq<Labels.Owner>>,
                                   c: Cluster) returns (requests: seq<Labels.Request>)
    ensures requests == if policies.Some? then Labels.PolicyRequests(policies.value, c) else []
  {
    requests := [];
    if policies.None? {
      return;
    }
    var all := policies.value;
    for i := 0 to |all|
      invariant requests + Labels.PolicyRequests(all[i..], c) == Labels.PolicyRequests(all, c)
    {
      var p := all[i];
      var more := [];
      if p.namespace == c.key.namespace && Labels.Valid(p.selector) && Labels.Matches(p.selector, c.labels) {
        more := [Labels.RequestFor(p)];
      }
      Labels.PolicyRequestsFrom(all, i, c);
      Regroup(requests, more, Labels.PolicyRequests(all[i + 1..], c));
      requests := requests + more;
    }
    assert all[|all|..] == [] && requests + [] == requests;
  }

  // ----- deployment on one cluster -----

  /** Get; create if not found, else overwrite the spec of what was found and update. */
  method CreateOrUpdate(c: RemoteClient, k: ObjKey, spec: RemoteSpec) returns (ok: bool)
    modifies c`calls, c.server
    ensures var s, n := old(c.server.objects), old(c.calls);
      if c.faults(n) != Fine then
        !ok && c.server.objects == s
      else
        && c.calls == n + 2
        && (ok <==> c.faults(n + 1) == Fine)
        && c.server.objects ==
           if c.faults(n + 1) == Refused then s
           else s[k := if k in s then s[k].(content := Policy(spec)) else Obj(Policy(spec), [], false)]
  {
    var r, existing := c.Get(k);
    if r == NotFound {
      r := c.Create(k, Obj(Policy(spec), [], false));
      return r == Done;
    }
    if r != Done {
      return false;
    }
    r := c.Update(k, existing.value.(content := Policy(spec)));
    ok := r == Done;
  }

  /** Deploys by type, then asks whether the object is active. */
  method DeployPolicy(c: RemoteClient, p: PolicySpec) returns (ok: bool, active: bool)
    requires c.calls == 1
    modifies c`calls, c.server
    ensures Policies.Rollout(c.server.objects, ok, active) == Policies.Deploy(p, old(c.server.objects), c.faults)
  {
    var spec := BuildPolicySpec(p);
    if p.policyType == "ClusterAdmissionPolicy" {
      ok := CreateOrUpdate(c, ObjKey(ClusterAdmissionPolicy, "", p.policyName), spec);
    } else {
      ok := CreateOrUpdate(c, ObjKey(AdmissionPolicy, p.targetNamespace, p.policyName), spec);
    }
    if !ok {
      return false, false;
    }
    var r, found := c.Get(Target(p));
    if r != Done {
      return false, false;
    }
    active := found.value.active;
  }

  method DeletePolicy(c: RemoteClient, p: PolicySpec) returns (ok: bool)
    requires c.calls == 1
    modifies c`calls, c.server
    ensures c.server.objects ==
      if c.faults(1) == Refused then old(c.server.objects) else old(c.server.objects) - {Target(p)}
    ensures ok <==> c.faults(1) == Fine
  {
    var r := c.Delete(Target(p));
    ok := r == Done || r == NotFound;
  }

  // ----- the two passes -----

  const RESYNC_SECONDS: nat := 300

  class Reconciler {
    const fleet: Fleet

    constructor (fleet: Fleet)
      ensures this.fleet == fleet
    {
      this.fleet := fleet;
    }

    /** The clusters of the policy's namespace that its selector matches, or an error. */
    function MatchingClusters(policy: KubewardenPolicy, listed: Option<seq<Cluster>>): (r: Option<seq<Cluster>>)
      reads policy
      ensures r == if listed.None? || !Labels.Valid(policy.selector) then None
                   else Some(Labels.Select(policy.selector, Labels.InNamespace(policy.namespace, listed.value)))
    {
      if listed.None? then None
      else Labels.MatchingClusters(Labels.Owner(policy.namespace, policy.name, policy.selector), listed.value)
    }

    /** One cluster's turn in the loop; None for a cluster that is skipped. */
    method VisitCluster(p: PolicySpec, c: Cluster, f: Faults) returns (entry: Option<Policies.Deployed>, ready: bool)
      requires fleet.Valid()
      modifies fleet.servers.Values
      ensures c.key !in fleet.servers ==> fleet.Stores() == old(fleet.Stores()) && entry == None && !ready
      ensures c.key in fleet.servers ==>
        var v := Policies.VisitOn(p, c, old(fleet.Stores())[c.key], f);
        fleet.Stores() == old(fleet.Stores())[c.key := v.store] && entry == v.entry && ready == v.ready
    {
      if c.key in fleet.servers {
        fleet.OnlyServer(c.key);
      }
      if !c.controlPlaneReady || !c.readyCondition {
        return None, false;
      }
      if !HasAnnotation(c, INSTALLED) {
        return None, false;
      }
      if c.key !in fleet.servers || f(0) != Fine {
        return None, false;
      }
      var client := new RemoteClient(fleet.servers[c.key], f);
      var active;
      ready, active := DeployPolicy(client, p);
      entry := Some(Policies.Deployed(c.key, p.policyName, p.policyType, ready && active));
      fleet.OnlyServer(c.key);
    }

    /** The loop over the matching clusters: no cluster's failure stops it. */
    method DeployOnClusters(p: PolicySpec, list: seq<Cluster>, f: Policies.PassFaults)
      returns (deployed: seq<Policies.Deployed>, allReady: bool)
      requires fleet.Valid()
      modifies fleet.servers.Values
      ensures Policies.PassResult(fleet.Stores(), deployed, allReady) == Policies.Loop(old(fleet.Stores()), p, list, f)
    {
      deployed, allReady := [], true;
      var i := 0;
      while i < |list|
        invariant 0 <= i <= |list|
        invariant Policies.Loop(old(fleet.Stores()), p, list, f) ==
                  Resumed(deployed, allReady, Policies.Loop(fleet.Stores(), p, list[i..], f))
      {
        var c := list[i];
        LoopUnfolds(fleet.Stores(), p, c, list[i + 1..], f);
        assert [c] + list[i + 1..] == list[i..];
        ghost var before := deployed;
        var entry, ready := VisitCluster(p, c, f(c.key));
        allReady := allReady && ready;
        if entry.Some? {
          deployed := deployed + [entry.value];
        }
        ResumedOnce(before, if entry.Some? then [entry.value] else [],
                    Policies.Loop(fleet.Stores(), p, list[i + 1..], f).deployed);
        i := i + 1;
      }
      assert list[i..] == [] && deployed + [] == deployed;
    }

    method DeleteOnCluster(p: PolicySpec, k: ClusterKey, f: Faults)
      requires fleet.Valid()
      modifies fleet.servers.Values
      ensures fleet.Stores() ==
        if k in fleet.servers then old(fleet.Stores())[k := Policies.DeleteOn(p, old(fleet.Stores())[k], f)]
        else old(fleet.Stores())
    {
      if k in fleet.servers {
        if f(0) == Fine {
          var client := new RemoteClient(fleet.servers[k], f);
          var _ := DeletePolicy(client, p);
        }
        fleet.OnlyServer(k);
      }
    }

    /** The pass over a list of matching clusters, up to the status that is sent. */
    method ReconcileMatching(policy: KubewardenPolicy, list: seq<Cluster>, f: Policies.PassFaults)
      requires fleet.Valid()
      modifies fleet.servers.Values, policy`status
      ensures var pass := Policies.Loop(old(fleet.Stores()), policy.spec, list, f);
              && fleet.Stores() == pass.stores
              && policy.status == Policies.StatusAfter(old(policy.status), list, pass)
    {
      if |list| == 0 {
        policy.status := policy.status.(ready := false, deployedPolicies := Of([]));
        return;
      }
      policy.SetMatchingClusters(list);
      var deployed, allReady := DeployOnClusters(policy.spec, list, f);
      policy.status := policy.status.(ready := allReady, deployedPolicies := Of(deployed));
    }

    method ReconcileNormal(policy: KubewardenPolicy, listed: Option<seq<Cluster>>, f: Policies.PassFaults,
                           statusFault: Fault)
      returns (r: Reconciled)
      requires fleet.Valid()
      modifies fleet.servers.Values, fleet`policyStatus, policy`status
      ensures MatchingClusters(policy, listed).None? ==>
        && r == Error && fleet.Stores() == old(fleet.Stores())
        && fleet.policyStatus == old(fleet.policyStatus) && policy.status == old(policy.status)
      ensures MatchingClusters(policy, listed).Some? ==>
        var list := MatchingClusters(policy, listed).value;
        var pass := Policies.Loop(old(fleet.Stores()), policy.spec, list, f);
        && fleet.Stores() == pass.stores
        && policy.status == (if list == [] then old(policy.status).(ready := false, deployedPolicies := Of([]))
                             else Policies.Status(pass.ready, Of(Map(Reference, list)), Of(pass.deployed)))
        && fleet.policyStatus ==
           (if statusFault == Refused then old(fleet.policyStatus)
            else old(fleet.policyStatus)[Labels.Request(policy.namespace, policy.name) := policy.status])
        && r == if statusFault != Fine then Error
                else RequeueAfter(if list == [] then 60 else 300)
    {
      var matching := MatchingClusters(policy, listed);
      if matching.None? {
        return Error;
      }
      var list := matching.value;
      ReconcileMatching(policy, list, f);
      var sent := fleet.UpdatePolicyStatus(Labels.Request(policy.namespace, policy.name), policy.status, statusFault);
      r := if !sent then Error else RequeueAfter(if |list| == 0 then REQUEUE_SECONDS else RESYNC_SECONDS);
    }

    /** Deletion: every failure is logged and passed over. */
    method ReconcileDelete(policy: KubewardenPolicy, listed: Option<seq<Cluster>>, f: Policies.PassFaults)
      returns (r: Reconciled)
      requires fleet.Valid()
      modifies fleet.servers.Values
      ensures MatchingClusters(policy, listed).None? ==> r == Error && fleet.Stores() == old(fleet.Stores())
      ensures MatchingClusters(policy, listed).Some? ==>
        && r == Settled
        && fleet.Stores() ==
           Policies.DeleteLoop(old(fleet.Stores()), policy.spec, MatchingClusters(policy, listed).value, f)
    {
      var matching := MatchingClusters(policy, listed);
      if matching.None? {
        return Error;
      }
      var list := matching.value;
      var p := policy.spec;
      var i := 0;
      while i < |list|
        invariant 0 <= i <= |list|
        invariant Policies.DeleteLoop(old(fleet.Stores()), p, list, f) ==
                  Policies.DeleteLoop(fleet.Stores(), p, list[i..], f)
      {
        assert list[i..][1..] == list[i + 1..];
        DeleteOnCluster(p, list[i].key, f(list[i].key));
        i := i + 1;
      }
      r := Settled;
    }
  }

  /** A pass resumed after the entries `deployed` and the verdict `allReady` so far. */
  function Resumed(deployed: seq<Policies.Deployed>, allReady: bool, r: Policies.PassResult): Policies.PassResult {
    Policies.PassResult(r.stores, deployed + r.deployed, allReady && r.ready)
  }

  lemma ResumedOnce(a: seq<Policies.Deployed>, b: seq<Policies.Deployed>, c: seq<Policies.Deployed>)
    ensures a + (b + c) == (a + b) + c
    ensures a + c == (a + []) + c
  {
  }

  lemma LoopUnfolds(stores: Policies.Stores, p: PolicySpec, c: Cluster, rest: seq<Cluster>, f: Policies.PassFaults)
    ensures Policies.Loop(stores, p, [c] + rest, f) ==
      if c.key !in stores then
        Policies.Loop(stores, p, rest, f).(ready := false)
      else
        var v := Policies.VisitOn(p, c, stores[c.key], f(c.key));
        var r := Policies.Loop(stores[c.key := v.store], p, rest, f);
        Policies.PassResult(r.stores, (if v.entry.Some? then [v.entry.value] else []) + r.deployed, v.ready && r.ready)
  {
    assert ([c] + rest)[1..] == rest;
  }
}
