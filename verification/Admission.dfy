/** From a KubewardenPolicy to the policy object in a workload cluster: defaulting, validation, conversion. */
module Admission {
  import opened Api

  // ----- defaulting -----

  function Defaulted(p: PolicySpec, name: string): PolicySpec {
    var q := p.(
      policyType := if p.policyType == "" then "ClusterAdmissionPolicy" else p.policyType,
      policyServer := if p.policyServer == "" then "default" else p.policyServer,
      failurePolicy := if p.failurePolicy == "" then "Fail" else p.failurePolicy,
      policyName := if p.policyName == "" then name else p.policyName);
    if q.policyType == "AdmissionPolicy" && q.targetNamespace == "" then q.(targetNamespace := "default") else q
  }

  /** A given field is kept, a blank one gets the documented default, and the rest is untouched. */
  lemma DefaultFillsBlanksOnly(p: PolicySpec, name: string)
    ensures var q := Defaulted(p, name);
            && q.policyType == (if p.policyType != "" then p.policyType else "ClusterAdmissionPolicy")
            && q.policyServer == (if p.policyServer != "" then p.policyServer else "default")
            && q.failurePolicy == (if p.failurePolicy != "" then p.failurePolicy else "Fail")
            && q.policyName == (if p.policyName != "" then p.policyName else name)
            && (q.policyType == "AdmissionPolicy" ==> q.targetNamespace != "")
            && (p.targetNamespace != "" || q.policyType != "AdmissionPolicy" ==> q.targetNamespace == p.targetNamespace)
            && (q.moduleRef, q.rules, q.mutating, q.settings, q.matchConditions) ==
               (p.moduleRef, p.rules, p.mutating, p.settings, p.matchConditions)
  {
  }

  /** Nothing that defaulting would fill in is missing. */
  predicate Complete(p: PolicySpec, name: string) {
    && p.policyType != "" && p.policyServer != "" && p.failurePolicy != ""
    && (p.policyName == "" ==> name == "")
    && (p.policyType == "AdmissionPolicy" ==> p.targetNamespace != "")
  }

  /** Defaulting completes every policy, and changes exactly those that are not complete. */
  lemma DefaultCompletes(p: PolicySpec, name: string)
    ensures Complete(Defaulted(p, name), name)
    ensures Defaulted(p, name) == p <==> Complete(p, name)
  {
  }

  lemma DefaultIsIdempotent(p: PolicySpec, name: string)
    ensures Defaulted(Defaulted(p, name), name) == Defaulted(p, name)
  {
  }

  // ----- validation -----

  datatype Reason = NoApiVersions | NoResources | NoOperations | InvalidOperation(op: string)

  datatype Verdict =
    | Admitted(warned: bool)
    | NoModule
    | NoRules
    | BadRule(index: nat, reason: Reason)
    | NoTargetNamespace

  const OPERATIONS: set<string> := {"CREATE", "UPDATE", "DELETE", "CONNECT"}

  predicate WellFormed(r: PolicyRule) {
    && r.apiVersions.Items() != []
    && r.resources.Items() != []
    && r.operations.Items() != []
    && forall op :: op in r.operations.Items() ==> op in OPERATIONS
  }

  /** `reason` is what is wrong with a rule that is not well formed: the first check that it fails, and for
      operations the first that is unknown. */
  predicate Faulty(r: PolicyRule, reason: Reason) {
    match reason
    case NoApiVersions => r.apiVersions.Items() == []
    case NoResources => r.apiVersions.Items() != [] && r.resources.Items() == []
    case NoOperations => r.apiVersions.Items() != [] && r.resources.Items() != [] && r.operations.Items() == []
    case InvalidOperation(op) =>
      && r.apiVersions.Items() != [] && r.resources.Items() != []
      && exists j :: 0 <= j < |r.operations.Items()| &&
                     FirstInvalid(r.operations.Items(), j) && r.operations.Items()[j] == op
  }

  predicate FirstInvalid(ops: seq<string>, j: nat)
    requires j < |ops|
  {
    ops[j] !in OPERATIONS && forall i :: 0 <= i < j ==> ops[i] in OPERATIONS
  }

  /** What validation promises about its verdict, for every policy. */
  ghost predicate Judges(p: PolicySpec, v: Verdict) {
    var rules := p.rules.Items();
    match v
    case NoModule => p.moduleRef == ""
    case NoRules => p.moduleRef != "" && rules == []
    case BadRule(i, reason) =>
      && p.moduleRef != "" && i < |rules| && Faulty(rules[i], reason)
      && forall j :: 0 <= j < i ==> WellFormed(rules[j])
    case NoTargetNamespace =>
      && p.moduleRef != "" && rules != [] && (forall r :: r in rules ==> WellFormed(r))
      && p.policyType == "AdmissionPolicy" && p.targetNamespace == ""
    case Admitted(warned) =>
      && p.moduleRef != "" && rules != [] && (forall r :: r in rules ==> WellFormed(r))
      && !(p.policyType == "AdmissionPolicy" && p.targetNamespace == "")
      && (warned <==> p.policyType == "AdmissionPolicy")
  }

  lemma FaultyIsUnique(r: PolicyRule, a: Reason, b: Reason)
    requires Faulty(r, a) && Faulty(r, b)
    ensures a == b && !WellFormed(r)
  {
    var ops := r.operations.Items();
    if a.InvalidOperation? && b.InvalidOperation? {
      var i :| 0 <= i < |ops| && FirstInvalid(ops, i) && ops[i] == a.op;
      var j :| 0 <= j < |ops| && FirstInvalid(ops, j) && ops[j] == b.op;
      assert i == j;
    }
  }

  /** The promise leaves exactly one verdict, so the error names the least failing rule. */
  lemma VerdictIsUnique(p: PolicySpec, v: Verdict, w: Verdict)
    requires Judges(p, v) && Judges(p, w)
    ensures v == w
  {
    var rules := p.rules.Items();
    if v.BadRule? {
      FaultyIsUnique(rules[v.index], v.reason, v.reason);
      assert rules[v.index] in rules;
    }
    if w.BadRule? {
      FaultyIsUnique(rules[w.index], w.reason, w.reason);
      assert rules[w.index] in rules;
    }
    if v.BadRule? && w.BadRule? {
      assert v.index == w.index;
      FaultyIsUnique(rules[v.index], v.reason, w.reason);
    }
  }

  /** A rule error names what is wrong with that rule: the first thing missing, or the first operation that is none of
      the four. */
  lemma RuleErrorNames(p: PolicySpec, v: Verdict)
    requires Judges(p, v) && v.BadRule?
    ensures v.index < |p.rules.Items()|
    ensures var r := p.rules.Items()[v.index];
            var ops := r.operations.Items();
            && (v.reason.NoApiVersions? <==> r.apiVersions.Items() == [])
            && (v.reason.NoResources? <==> r.apiVersions.Items() != [] && r.resources.Items() == [])
            && (v.reason.NoOperations? <==> r.apiVersions.Items() != [] && r.resources.Items() != [] && ops == [])
            && (v.reason.InvalidOperation? ==>
                 exists j :: 0 <= j < |ops| && v.reason.op == ops[j]
                             && ops[j] !in ["CREATE", "UPDATE", "DELETE", "CONNECT"]
                             && forall i :: 0 <= i < j ==> ops[i] in ["CREATE", "UPDATE", "DELETE", "CONNECT"])
  {
    assert forall op :: op in OPERATIONS <==> op in ["CREATE", "UPDATE", "DELETE", "CONNECT"];
  }

  /** A defaulted policy is admitted exactly when its module and rules are there and every rule is well formed. */
  lemma DefaultedAdmittedIff(p: PolicySpec, name: string, v: Verdict)
    requires Judges(Defaulted(p, name), v)
    ensures v.Admitted? <==>
      && p.moduleRef != "" && p.rules.Items() != []
      && forall r :: r in p.rules.Items() ==>
           && r.apiVersions.Items() != [] && r.resources.Items() != [] && r.operations.Items() != []
           && forall op :: op in r.operations.Items() ==>
                op == "CREATE" || op == "UPDATE" || op == "DELETE" || op == "CONNECT"
  {
    var rules := p.rules.Items();
    if v.BadRule? {
      FaultyIsUnique(rules[v.index], v.reason, v.reason);
      assert rules[v.index] in rules;
    }
  }

  // ----- conversion -----

  function ConvertScope(scope: string): Option<string> {
    if scope == "" then None else Some(scope)
  }

  /** Built with make, so nil operations come out empty. */
  function ConvertOperations(ops: Slice<string>): Slice<string> {
    Of(ops.Items())
  }

  function ConvertRule(r: PolicyRule): RemoteRule {
    RemoteRule(ConvertOperations(r.operations), r.apiGroups, r.apiVersions, r.resources, ConvertScope(r.scope))
  }

  /** Built with append on a nil slice, so no elements means nil. */
  function Appended<T>(xs: seq<T>): Slice<T> {
    if xs == [] then Nil else Of(xs)
  }

  function BuildSpec(p: PolicySpec): RemoteSpec {
    RemoteSpec(
      p.policyServer,
      p.moduleRef,
      p.mutating,
      Appended(Map(ConvertRule, p.rules.Items())),
      if p.failurePolicy == "" then None else Some(p.failurePolicy),
      if p.settings.Items() == [] then Nil else p.settings,
      Appended(p.matchConditions.Items()))
  }

  /** Any type other than "ClusterAdmissionPolicy" is deployed as an AdmissionPolicy. */
  function Target(p: PolicySpec): (k: ObjKey)
    ensures IsPolicy(k)
  {
    if p.policyType == "ClusterAdmissionPolicy" then ObjKey(ClusterAdmissionPolicy, "", p.policyName)
    else ObjKey(AdmissionPolicy, p.targetNamespace, p.policyName)
  }

  /** What the documented defaults come to in the workload cluster: a policy without a type becomes cluster-wide, one
      without a name carries the resource's, a namespaced one without a namespace lands in "default", and one without
      server or failure policy is served by "default" and fails closed. */
  lemma DefaultsReachTheCluster(p: PolicySpec, name: string)
    ensures var q := Defaulted(p, name);
            var k, s := Target(q), BuildSpec(q);
            && (k.kind.ClusterAdmissionPolicy? <==> p.policyType == "" || p.policyType == "ClusterAdmissionPolicy")
            && k.name == (if p.policyName != "" then p.policyName else name)
            && (k.kind.ClusterAdmissionPolicy? ==> k.namespace == "")
            && (p.policyType == "AdmissionPolicy" ==>
                 k.namespace == if p.targetNamespace != "" then p.targetNamespace else "default")
            && s.policyServer == (if p.policyServer != "" then p.policyServer else "default")
            && s.failurePolicy == Some(if p.failurePolicy != "" then p.failurePolicy else "Fail")
            && s == BuildSpec(p).(policyServer := s.policyServer, failurePolicy := s.failurePolicy)
  {
    DefaultFillsBlanksOnly(p, name);
  }

  /** What the policy leaves empty is left out of the deployed spec, except for operations, which are always sent. */
  lemma EmptyIsLeftOut(p: PolicySpec)
    ensures var s, rules := BuildSpec(p), p.rules.Items();
            && (s.failurePolicy.None? <==> p.failurePolicy == "")
            && (s.settings.Nil? <==> p.settings.Items() == [])
            && (s.matchConditions.Nil? <==> p.matchConditions.Items() == [])
            && (s.rules.Nil? <==> rules == []) && |s.rules.Items()| == |rules|
            && forall i :: 0 <= i < |rules| ==>
                 (s.rules.Items()[i].scope.None? <==> rules[i].scope == "") && s.rules.Items()[i].operations.Of?
  {
  }

  function RecoverRule(r: RemoteRule): PolicyRule {
    PolicyRule(r.apiGroups, r.apiVersions, r.resources, r.operations, if r.scope.Some? then r.scope.value else "")
  }

  /** The policy read back from the object it was deployed as. */
  function Recover(k: ObjKey, s: RemoteSpec): PolicySpec {
    PolicySpec(
      if k.kind.ClusterAdmissionPolicy? then "ClusterAdmissionPolicy" else "AdmissionPolicy",
      k.name,
      k.namespace,
      s.policyServer,
      s.moduleRef,
      Appended(Map(RecoverRule, s.rules.Items())),
      s.mutating,
      s.settings,
      if s.failurePolicy.Some? then s.failurePolicy.value else "",
      s.matchConditions)
  }

  /** Nothing in the policy is of the kind that conversion forgets: an empty slice that is not nil, operations
      that are nil, a type outside the two, or a target namespace on a cluster-wide policy. */
  predicate Representable(p: PolicySpec) {
    && p.rules != Of([]) && p.settings != Of([]) && p.matchConditions != Of([])
    && (forall r :: r in p.rules.Items() ==> r.operations.Of?)
    && (p.policyType == "AdmissionPolicy" || (p.policyType == "ClusterAdmissionPolicy" && p.targetNamespace == ""))
  }

  lemma RuleRoundTrip(r: PolicyRule)
    ensures RecoverRule(ConvertRule(r)) == r.(operations := Of(r.operations.Items()))
  {
  }

  lemma RulesRoundTrip(rules: Slice<PolicyRule>)
    ensures Appended(Map(RecoverRule, Appended(Map(ConvertRule, rules.Items())).Items())) == rules <==>
            rules != Of([]) && forall r :: r in rules.Items() ==> r.operations.Of?
  {
    var back := Map(RecoverRule, Map(ConvertRule, rules.Items()));
    forall i | 0 <= i < |rules.Items()|
      ensures back[i] == rules.Items()[i] <==> rules.Items()[i].operations.Of?
    {
      RuleRoundTrip(rules.Items()[i]);
    }
    if forall r :: r in rules.Items() ==> r.operations.Of? {
      assert back == rules.Items();
    } else {
      var i :| 0 <= i < |rules.Items()| && !rules.Items()[i].operations.Of?;
      assert back[i] != rules.Items()[i];
    }
  }

  /** Exactly the representable policies can be read back unchanged. */
  lemma RecoverIff(p: PolicySpec)
    ensures Recover(Target(p), BuildSpec(p)) == p <==> Representable(p)
  {
    RulesRoundTrip(p.rules);
  }

  function NilIfEmpty<T>(s: Slice<T>): Slice<T> {
    if s == Of([]) then Nil else s
  }

  /** For an admitted policy of one of the two types only that much is forgotten: whether absent settings and
      match conditions are nil or empty, and the target namespace of a cluster-wide policy, which is ignored. */
  lemma AdmittedIsRecovered(p: PolicySpec, v: Verdict)
    requires Judges(p, v) && v.Admitted?
    requires p.policyType == "ClusterAdmissionPolicy" || p.policyType == "AdmissionPolicy"
    ensures Recover(Target(p), BuildSpec(p)) ==
            p.(settings := NilIfEmpty(p.settings),
               matchConditions := NilIfEmpty(p.matchConditions),
               targetNamespace := if p.policyType == "AdmissionPolicy" then p.targetNamespace else "")
  {
    RulesRoundTrip(p.rules);
  }
}
