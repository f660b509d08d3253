/** The generated deep copies, on the heap: Go structs are values here, their slices and pointer fields references. */
module DeepCopy {
  import opened Api

  /** The value of a slice; a nil slice is a null reference. */
  function SliceView<T>(a: array?<T>): Slice<T>
    reads a
  {
    if a == null then Nil else Of(a[..])
  }

  function Ref(o: object?): set<object> {
    if o == null then {} else {o}
  }

  /** `make` and `copy`; nothing for nil. */
  method CopySlice<T>(src: array?<T>) returns (dst: array?<T>)
    ensures SliceView(dst) == SliceView(src)
    ensures fresh(Ref(dst))
  {
    if src == null {
      dst := null;
    } else {
      dst := new T[src.Length](i requires 0 <= i < src.Length reads src => src[i]);
    }
  }

  // ----- PolicyRule -----

  datatype RuleRef = RuleRef(
    apiGroups: array?<string>,
    apiVersions: array?<string>,
    resources: array?<string>,
    operations: array?<string>,
    scope: string
  )

  function RuleFoot(r: RuleRef): set<object> {
    Ref(r.apiGroups) + Ref(r.apiVersions) + Ref(r.resources) + Ref(r.operations)
  }

  function RuleView(r: RuleRef): PolicyRule
    reads RuleFoot(r)
  {
    PolicyRule(SliceView(r.apiGroups), SliceView(r.apiVersions), SliceView(r.resources), SliceView(r.operations),
               r.scope)
  }

  method CopyRule(src: RuleRef) returns (out: RuleRef)
    ensures RuleView(out) == RuleView(src)
    ensures fresh(RuleFoot(out))
  {
    out := src;
    var groups := CopySlice(src.apiGroups);
    var versions := CopySlice(src.apiVersions);
    var resources := CopySlice(src.resources);
    var operations := CopySlice(src.operations);
    out := out.(apiGroups := groups, apiVersions := versions, resources := resources, operations := operations);
  }

  // ----- the label selector -----

  class LabelMap {
    var labels: map<string, string>

    constructor (labels: map<string, string>)
      ensures this.labels == labels
    {
      this.labels := labels;
    }
  }

  datatype RequirementRef = RequirementRef(key: string, operator: string, values: array?<string>)

  datatype RequirementValue = RequirementValue(key: string, operator: string, values: Slice<string>)

  datatype SelectorRef = SelectorRef(matchLabels: LabelMap?, matchExpressions: array?<RequirementRef>)

  datatype SelectorValue = SelectorValue(
    matchLabels: Option<map<string, string>>, matchExpressions: Slice<RequirementValue>)

  function RequirementView(r: RequirementRef): RequirementValue
    reads Ref(r.values)
  {
    RequirementValue(r.key, r.operator, SliceView(r.values))
  }

  ghost function ValuesFoot(rs: seq<RequirementRef>): set<object> {
    set i, o | 0 <= i < |rs| && o in Ref(rs[i].values) :: o
  }

  ghost function RequirementsView(rs: seq<RequirementRef>): seq<RequirementValue>
    reads ValuesFoot(rs)
  {
    seq(|rs|, i requires 0 <= i < |rs| reads ValuesFoot(rs) => RequirementView(rs[i]))
  }

  ghost function ExpressionsFoot(a: array?<RequirementRef>): set<object>
    reads a
  {
    if a == null then {} else {a} + ValuesFoot(a[..])
  }

  ghost function ExpressionsView(a: array?<RequirementRef>): Slice<RequirementValue>
    reads a, ExpressionsFoot(a)
  {
    if a == null then Nil else Of(RequirementsView(a[..]))
  }

  function LabelsView(m: LabelMap?): Option<map<string, string>>
    reads m
  {
    if m == null then None else Some(m.labels)
  }

  ghost function SelectorFoot(s: SelectorRef): set<object>
    reads s.matchExpressions
  {
    Ref(s.matchLabels) + ExpressionsFoot(s.matchExpressions)
  }

  ghost function SelectorView(s: SelectorRef): SelectorValue
    reads s.matchExpressions, SelectorFoot(s)
  {
    SelectorValue(LabelsView(s.matchLabels), ExpressionsView(s.matchExpressions))
  }

  method CopyRequirement(src: RequirementRef) returns (out: RequirementRef)
    ensures RequirementView(out) == RequirementView(src)
    ensures fresh(Ref(out.values))
  {
    var values := CopySlice(src.values);
    out := src.(values := values);
  }

  method CopyExpressions(src: array?<RequirementRef>) returns (dst: array?<RequirementRef>)
    ensures fresh(ExpressionsFoot(dst))
    ensures ExpressionsView(dst) == old(ExpressionsView(src))
  {
    if src == null {
      return null;
    }
    dst := new RequirementRef[src.Length](i requires 0 <= i < src.Length reads src => src[i]);
    var i := 0;
    while i < src.Length
      invariant i <= src.Length == dst.Length
      invariant forall j :: 0 <= j < i ==>
        fresh(Ref(dst[j].values)) && RequirementView(dst[j]) == old(RequirementView(src[j]))
    {
      var r := CopyRequirement(src[i]);
      dst[i] := r;
      i := i + 1;
    }
  }

  method CopyLabels(src: LabelMap?) returns (dst: LabelMap?)
    ensures LabelsView(dst) == LabelsView(src)
    ensures fresh(Ref(dst))
  {
    dst := null;
    if src != null {
      dst := new LabelMap(src.labels);
    }
  }

  /** The library's copy of a label selector, on which the generated code relies. */
  method CopySelector(src: SelectorRef) returns (out: SelectorRef)
    ensures SelectorView(out) == old(SelectorView(src))
    ensures fresh(SelectorFoot(out))
  {
    var labels := CopyLabels(src.matchLabels);
    var expressions := CopyExpressions(src.matchExpressions);
    out := SelectorRef(labels, expressions);
  }

  // ----- KubewardenPolicySpec -----

  datatype SpecValue = SpecValue(selector: SelectorValue, rest: PolicySpec)

  datatype SpecRef = SpecRef(
    clusterSelector: SelectorRef,
    policyType: string,
    policyName: string,
    targetNamespace: string,
    policyServer: string,
    moduleRef: string,
    rules: array?<RuleRef>,
    mutating: bool,
    settings: array?<char>,
    failurePolicy: string,
    matchConditions: array?<MatchCondition>
  )

  ghost function RulesFoot(rules: seq<RuleRef>): set<object> {
    set i, o | 0 <= i < |rules| && o in RuleFoot(rules[i]) :: o
  }

  ghost function RulesView(rules: seq<RuleRef>): seq<PolicyRule>
    reads RulesFoot(rules)
  {
    seq(|rules|, i requires 0 <= i < |rules| reads RulesFoot(rules) => RuleView(rules[i]))
  }

  ghost function RuleSliceFoot(a: array?<RuleRef>): set<object>
    reads a
  {
    if a == null then {} else {a} + RulesFoot(a[..])
  }

  ghost function RuleSliceView(a: array?<RuleRef>): Slice<PolicyRule>
    reads a, RuleSliceFoot(a)
  {
    if a == null then Nil else Of(RulesView(a[..]))
  }

  /** Everything a write could reach from the spec. */
  ghost function SpecFoot(s: SpecRef): set<object>
    reads s.rules, s.clusterSelector.matchExpressions
  {
    SelectorFoot(s.clusterSelector) + RestFoot(s)
  }

  ghost function RestFoot(s: SpecRef): set<object>
    reads s.rules
  {
    RuleSliceFoot(s.rules) + Ref(s.settings) + Ref(s.matchConditions)
  }

  ghost function SpecView(s: SpecRef): SpecValue
    reads s.rules, s.clusterSelector.matchExpressions, SpecFoot(s)
  {
    SpecValue(SelectorView(s.clusterSelector), RestView(s))
  }

  ghost function RestView(s: SpecRef): PolicySpec
    reads s.rules, RestFoot(s)
  {
    PolicySpec(
      s.policyType, s.policyName, s.targetNamespace, s.policyServer, s.moduleRef,
      RuleSliceView(s.rules),
      s.mutating, SliceView(s.settings), s.failurePolicy, SliceView(s.matchConditions))
  }

  method CopyRules(src: array?<RuleRef>) returns (dst: array?<RuleRef>)
    ensures fresh(RuleSliceFoot(dst))
    ensures RuleSliceView(dst) == old(RuleSliceView(src))
  {
    if src == null {
      return null;
    }
    dst := new RuleRef[src.Length];
    var i := 0;
    while i < src.Length
      invariant i <= src.Length == dst.Length
      invariant forall j :: 0 <= j < i ==> fresh(RuleFoot(dst[j])) && RuleView(dst[j]) == old(RuleView(src[j]))
    {
      var r := CopyRule(src[i]);
      dst[i] := r;
      i := i + 1;
    }
  }

  /** Everything after the selector. */
  method CopyRest(src: SpecRef) returns (out: SpecRef)
    ensures out.clusterSelector == src.clusterSelector
    ensures RestView(out) == old(RestView(src))
    ensures fresh(RestFoot(out))
  {
    out := src;
    var settings := CopySlice(src.settings);
    var conditions := CopySlice(src.matchConditions);
    var rules := CopyRules(src.rules);
    assert SliceView(settings) == old(SliceView(src.settings));
    assert SliceView(conditions) == old(SliceView(src.matchConditions));
    out := out.(rules := rules, settings := settings, matchConditions := conditions);
  }

  /** The copy is equal in every field, nil and empty told apart, and no write through one side can reach anything
      the other side sees: its whole footprint is new memory. */
  method CopySpec(src: SpecRef) returns (out: SpecRef)
    ensures SpecView(out) == old(SpecView(src))
    ensures fresh(SpecFoot(out))
  {
    var selector := CopySelector(src.clusterSelector);
    RestKeptApart(src);
    var rest := CopyRest(src);
    out := rest.(clusterSelector := selector);
    assert SelectorView(selector) == old(SelectorView(src.clusterSelector));
    assert RestFoot(out) == RestFoot(rest) && RestView(out) == RestView(rest);
    assert old(SpecView(src)) == SpecValue(old(SelectorView(src.clusterSelector)), old(RestView(src)));
  }

  twostate lemma SelectorKeptApart(s: SelectorRef)
    requires unchanged(old(SelectorFoot(s)))
    ensures SelectorFoot(s) == old(SelectorFoot(s)) && SelectorView(s) == old(SelectorView(s))
  {
    if s.matchExpressions != null {
      assert s.matchExpressions in old(SelectorFoot(s));
      assert s.matchExpressions[..] == old(s.matchExpressions[..]);
      forall i | 0 <= i < s.matchExpressions.Length
        ensures RequirementView(s.matchExpressions[i]) == old(RequirementView(s.matchExpressions[i]))
      {
        assert Ref(s.matchExpressions[i].values) <= old(SelectorFoot(s));
      }
    }
  }

  twostate lemma RestKeptApart(s: SpecRef)
    requires unchanged(old(RestFoot(s)))
    ensures RestFoot(s) == old(RestFoot(s)) && RestView(s) == old(RestView(s))
  {
    if s.rules != null {
      assert s.rules in old(RestFoot(s));
      assert s.rules[..] == old(s.rules[..]);
      forall i | 0 <= i < s.rules.Length
        ensures RuleView(s.rules[i]) == old(RuleView(s.rules[i]))
      {
        assert RuleFoot(s.rules[i]) <= old(RestFoot(s));
      }
    }
  }

  /** Whatever is written between two moments, a spec none of whose memory is written keeps its value. */
  twostate lemma SpecKeptApart(s: SpecRef)
    requires unchanged(old(SelectorFoot(s.clusterSelector))) && unchanged(old(RestFoot(s)))
    ensures SpecFoot(s) == old(SpecFoot(s)) && SpecView(s) == old(SpecView(s))
  {
    SelectorKeptApart(s.clusterSelector);
    RestKeptApart(s);
  }

  // ----- the two status records -----

  class TimeCell {
    var time: int

    constructor (time: int)
      ensures this.time == time
    {
      this.time := time;
    }
  }

  datatype DeployedRef = DeployedRef(
    cluster: ClusterKey, policyName: string, policyType: string, active: bool,
    lastTransitionTime: TimeCell?, message: string)

  datatype DeployedValue = DeployedValue(
    cluster: ClusterKey, policyName: string, policyType: string, active: bool,
    lastTransitionTime: Option<int>, message: string)

  datatype Condition = Condition(kind: string, status: string, reason: string, message: string)

  datatype PolicyStatusRef = PolicyStatusRef(
    ready: bool, conditions: array?<Condition>, matchingClusters: array?<ObjectReference>,
    deployed: array?<DeployedRef>)

  datatype PolicyStatusValue = PolicyStatusValue(
    ready: bool, conditions: Slice<Condition>, matchingClusters: Slice<ObjectReference>, deployed: Slice<DeployedValue>)

  datatype AddonStatusRef = AddonStatusRef(
    ready: bool, conditions: array?<Condition>, matchingClusters: array?<ObjectReference>)

  datatype AddonStatusValue = AddonStatusValue(
    ready: bool, conditions: Slice<Condition>, matchingClusters: Slice<ObjectReference>)

  function DeployedView(d: DeployedRef): DeployedValue
    reads Ref(d.lastTransitionTime)
  {
    DeployedValue(d.cluster, d.policyName, d.policyType, d.active,
                  if d.lastTransitionTime == null then None else Some(d.lastTransitionTime.time), d.message)
  }

  method CopyDeployed(src: DeployedRef) returns (out: DeployedRef)
    ensures DeployedView(out) == DeployedView(src)
    ensures fresh(Ref(out.lastTransitionTime))
  {
    out := src;
    if src.lastTransitionTime != null {
      var cell := new TimeCell(src.lastTransitionTime.time);
      out := out.(lastTransitionTime := cell);
    }
  }

  ghost function TimesFoot(ds: seq<DeployedRef>): set<object> {
    set i, o | 0 <= i < |ds| && o in Ref(ds[i].lastTransitionTime) :: o
  }

  ghost function AllDeployedView(ds: seq<DeployedRef>): seq<DeployedValue>
    reads TimesFoot(ds)
  {
    seq(|ds|, i requires 0 <= i < |ds| reads TimesFoot(ds) => DeployedView(ds[i]))
  }

  ghost function DeployedSliceFoot(a: array?<DeployedRef>): set<object>
    reads a
  {
    if a == null then {} else {a} + TimesFoot(a[..])
  }

  ghost function DeployedSliceView(a: array?<DeployedRef>): Slice<DeployedValue>
    reads a, DeployedSliceFoot(a)
  {
    if a == null then Nil else Of(AllDeployedView(a[..]))
  }

  ghost function PolicyStatusFoot(s: PolicyStatusRef): set<object>
    reads s.deployed
  {
    Ref(s.conditions) + Ref(s.matchingClusters) + DeployedSliceFoot(s.deployed)
  }

  ghost function PolicyStatusView(s: PolicyStatusRef): PolicyStatusValue
    reads s.deployed, PolicyStatusFoot(s)
  {
    PolicyStatusValue(s.ready, SliceView(s.conditions), SliceView(s.matchingClusters),
                      DeployedSliceView(s.deployed))
  }

  method CopyAllDeployed(src: array?<DeployedRef>) returns (dst: array?<DeployedRef>)
    ensures fresh(DeployedSliceFoot(dst))
    ensures DeployedSliceView(dst) == old(DeployedSliceView(src))
  {
    if src == null {
      return null;
    }
    dst := new DeployedRef[src.Length](i requires 0 <= i < src.Length reads src => src[i]);
    var i := 0;
    while i < src.Length
      invariant i <= src.Length == dst.Length
      invariant forall j :: 0 <= j < i ==>
        fresh(Ref(dst[j].lastTransitionTime)) && DeployedView(dst[j]) == old(DeployedView(src[j]))
    {
      var d := CopyDeployed(src[i]);
      dst[i] := d;
      i := i + 1;
    }
  }

  method CopyPolicyStatus(src: PolicyStatusRef) returns (out: PolicyStatusRef)
    ensures PolicyStatusView(out) == old(PolicyStatusView(src))
    ensures fresh(PolicyStatusFoot(out))
  {
    out := src;
    var conditions := CopySlice(src.conditions);
    var clusters := CopySlice(src.matchingClusters);
    var deployed := CopyAllDeployed(src.deployed);
    out := out.(conditions := conditions, matchingClusters := clusters, deployed := deployed);
  }

  twostate lemma PolicyStatusKeptApart(s: PolicyStatusRef)
    requires unchanged(old(PolicyStatusFoot(s)))
    ensures PolicyStatusFoot(s) == old(PolicyStatusFoot(s)) && PolicyStatusView(s) == old(PolicyStatusView(s))
  {
    if s.deployed != null {
      assert s.deployed in old(PolicyStatusFoot(s));
      assert s.deployed[..] == old(s.deployed[..]);
      forall i | 0 <= i < s.deployed.Length
        ensures DeployedView(s.deployed[i]) == old(DeployedView(s.deployed[i]))
      {
        assert Ref(s.deployed[i].lastTransitionTime) <= old(PolicyStatusFoot(s));
      }
    }
  }

  function AddonStatusFoot(s: AddonStatusRef): set<object> {
    Ref(s.conditions) + Ref(s.matchingClusters)
  }

  function AddonStatusView(s: AddonStatusRef): AddonStatusValue
    reads AddonStatusFoot(s)
  {
    AddonStatusValue(s.ready, SliceView(s.conditions), SliceView(s.matchingClusters))
  }

  method CopyAddonStatus(src: AddonStatusRef) returns (out: AddonStatusRef)
    ensures AddonStatusView(out) == AddonStatusView(src)
    ensures fresh(AddonStatusFoot(out))
  {
    out := src;
    var conditions := CopySlice(src.conditions);
    var clusters := CopySlice(src.matchingClusters);
    out := out.(conditions := conditions, matchingClusters := clusters);
  }

  // ----- the cluster snapshot behind the annotation patch -----

  class AnnotationMap {
    var entries: map<string, string>

    constructor (entries: map<string, string>)
      ensures this.entries == entries
    {
      this.entries := entries;
    }
  }

  /** A cluster whose annotations are a reference to a map, as in Go; `rest` holds the other fields. */
  datatype ClusterRef = ClusterRef(rest: Cluster, annotations: AnnotationMap?)

  function ClusterView(c: ClusterRef): Cluster
    reads Ref(c.annotations)
  {
    c.rest.(annotations := if c.annotations == null then None else Some(c.annotations.entries))
  }

  method CopyCluster(src: ClusterRef) returns (out: ClusterRef)
    ensures ClusterView(out) == ClusterView(src)
    ensures fresh(Ref(out.annotations))
  {
    out := src;
    if src.annotations != null {
      var m := new AnnotationMap(src.annotations.entries);
      out := out.(annotations := m);
    }
  }

  /** The annotation step before the patch. The write goes through the map that the listed cluster shares, so an
      existing map of the list changes too; the snapshot, copied before, does not. */
  method PrepareAnnotation(listed: ClusterRef) returns (live: ClusterRef, snapshot: ClusterRef)
    modifies Ref(listed.annotations)
    ensures ClusterView(snapshot) == old(ClusterView(listed))
    ensures ClusterView(live) == Annotated(old(ClusterView(listed)))
    ensures ClusterView(listed) ==
            if listed.annotations != null then Annotated(old(ClusterView(listed))) else old(ClusterView(listed))
  {
    live := listed;
    var annotations := live.annotations;
    if annotations == null {
      annotations := new AnnotationMap(map[]);
    }
    snapshot := CopyCluster(live);
    annotations.entries := annotations.entries[INSTALLED := "true"];
    live := live.(annotations := annotations);
  }
}
