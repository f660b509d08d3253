/** The values that travel between the management cluster and the workload clusters. */
module Api {

  datatype Option<+T> = None | Some(value: T)

  /** A Go slice seen as a value: nil is not the same as empty. */
  datatype Slice<+T> = Nil | Of(items: seq<T>) {
    function Items(): seq<T> {
      if Nil? then [] else items
    }
  }

  /** Clusters, addons and policies are namespaced, so their namespace is never empty. */
  type Namespace = s: string | s != "" witness "default"

  datatype ClusterKey = ClusterKey(namespace: Namespace, name: string)

  /** The part of a Cluster API `Cluster` that the two controllers read or write. */
  datatype Cluster = Cluster(
    kind: string,
    apiVersion: string,
    key: ClusterKey,
    labels: map<string, string>,
    annotations: Option<map<string, string>>,
    controlPlaneReady: bool,  // status.controlPlaneReady
    readyCondition: bool      // the ControlPlaneReady condition is true
  )

  datatype ObjectReference = ObjectReference(kind: string, apiVersion: string, key: ClusterKey)

  const INSTALLED := "caapkw.kubewarden.io/installed"

  predicate HasAnnotation(c: Cluster, annotation: string) {
    c.annotations.Some? && annotation in c.annotations.value
  }

  function Annotations(c: Cluster): map<string, string> {
    if c.annotations.Some? then c.annotations.value else map[]
  }

  /** The cluster once its install annotation is set. */
  function Annotated(c: Cluster): (r: Cluster)
    ensures HasAnnotation(r, INSTALLED) && r.key == c.key
  {
    c.(annotations := Some(Annotations(c)[INSTALLED := "true"]))
  }

  predicate Distinct(list: seq<Cluster>) {
    forall i, j :: 0 <= i < j < |list| ==> list[i].key != list[j].key
  }

  function Keys(list: seq<Cluster>): set<ClusterKey> {
    set c | c in list :: c.key
  }

  function Reference(c: Cluster): ObjectReference {
    ObjectReference(c.kind, c.apiVersion, c.key)
  }

  // ----- KubewardenPolicy and the policy object it becomes -----

  datatype PolicyRule = PolicyRule(
    apiGroups: Slice<string>,
    apiVersions: Slice<string>,
    resources: Slice<string>,
    operations: Slice<string>,
    scope: string
  )

  datatype MatchCondition = MatchCondition(name: string, expression: string)

  /** The fields of a KubewardenPolicySpec other than its cluster selector. */
  datatype PolicySpec = PolicySpec(
    policyType: string,
    policyName: string,
    targetNamespace: string,
    policyServer: string,
    moduleRef: string,
    rules: Slice<PolicyRule>,
    mutating: bool,
    settings: Slice<char>,
    failurePolicy: string,
    matchConditions: Slice<MatchCondition>
  )

  datatype RemoteRule = RemoteRule(
    operations: Slice<string>,
    apiGroups: Slice<string>,
    apiVersions: Slice<string>,
    resources: Slice<string>,
    scope: Option<string>
  )

  /** The spec of a ClusterAdmissionPolicy or AdmissionPolicy in a workload cluster. */
  datatype RemoteSpec = RemoteSpec(
    policyServer: string,
    moduleRef: string,
    mutating: bool,
    rules: Slice<RemoteRule>,
    failurePolicy: Option<string>,
    settings: Slice<char>,
    matchConditions: Slice<MatchCondition>
  )

  // ----- objects of a workload cluster -----

  datatype Kind =
    | NamespaceKind
    | Deployment
    | PolicyServer
    | CronJob
    | ClusterAdmissionPolicy
    | AdmissionPolicy
    | OtherKind(name: string)

  datatype ObjKey = ObjKey(kind: Kind, namespace: string, name: string)

  datatype Content = Document(text: string) | Policy(spec: RemoteSpec)

  /** `active` stands for the policy status, which only the workload cluster writes. */
  datatype Obj = Obj(content: Content, tolerations: seq<string>, active: bool)

  type Store = map<ObjKey, Obj>

  predicate IsPolicy(k: ObjKey) {
    k.kind.ClusterAdmissionPolicy? || k.kind.AdmissionPolicy?
  }

  const TOLERATED: seq<string> := ["node-role.kubernetes.io/control-plane:Exists:NoSchedule"]

  // ----- sequences -----

  function Map<A, B>(g: A -> B, xs: seq<A>): (ys: seq<B>)
    ensures |ys| == |xs| && forall i :: 0 <= i < |xs| ==> ys[i] == g(xs[i])
  {
    seq(|xs|, i requires 0 <= i < |xs| => g(xs[i]))
  }

  /** Moving the end of a list of open work over to what is done. */
  lemma Regroup<T>(done: seq<T>, x: seq<T>, rest: seq<T>)
    ensures done + (x + rest) == (done + x) + rest
    ensures done + [] == done
  {
  }

  lemma CardMinus<T>(a: set<T>, b: set<T>)
    requires b <= a
    ensures |a - b| == |a| - |b|
  {
    assert a == (a - b) + b;
  }

  /** Taking the same element out of two permutations leaves permutations. */
  lemma RemoveSame<T>(a: seq<T>, b: seq<T>, i: nat)
    requires a != [] && i < |b| && b[i] == a[0] && multiset(a) == multiset(b)
    ensures multiset(a[1..]) == multiset(b[..i] + b[i + 1..])
  {
    assert a == [a[0]] + a[1..];
    assert b == b[..i] + [b[i]] + b[i + 1..];
    assert multiset(a) == multiset{a[0]} + multiset(a[1..]);
    assert multiset(b) == multiset(b[..i]) + multiset{b[i]} + multiset(b[i + 1..]);
    assert multiset(a[1..]) == multiset(a) - multiset{a[0]};
    assert multiset(b[..i] + b[i + 1..]) == multiset(b) - multiset{b[i]};
  }

  /** The elements of `sub` are those of `list` at the rising positions `at`. */
  ghost predicate PickedAt<T>(sub: seq<T>, list: seq<T>, at: seq<nat>) {
    && |at| == |sub|
    && (forall i :: 0 <= i < |at| ==> at[i] < |list| && sub[i] == list[at[i]])
    && (forall i, j :: 0 <= i < j < |at| ==> at[i] < at[j])
  }

  lemma Shifted<T>(sub: seq<T>, list: seq<T>, at: seq<nat>, x: T) returns (up: seq<nat>)
    requires PickedAt(sub, list, at)
    ensures PickedAt(sub, [x] + list, up)
    ensures |up| == |at| && forall i :: 0 <= i < |up| ==> up[i] == at[i] + 1
  {
    up := seq(|at|, i requires 0 <= i < |at| => at[i] + 1);
    forall i | 0 <= i < |up|
      ensures up[i] < |[x] + list| && sub[i] == ([x] + list)[up[i]]
    {
      assert up[i] == at[i] + 1;
    }
  }

  lemma Prepended<T>(sub: seq<T>, list: seq<T>, up: seq<nat>, x: T)
    requires PickedAt(sub, [x] + list, up) && forall i :: 0 <= i < |up| ==> 0 < up[i]
    ensures PickedAt([x] + sub, [x] + list, [0] + up)
  {
    var at: seq<nat> := [0] + up;
    forall i | 0 <= i < |at|
      ensures at[i] < |[x] + list| && ([x] + sub)[i] == ([x] + list)[at[i]]
    {
      if i > 0 {
        assert at[i] == up[i - 1] && ([x] + sub)[i] == sub[i - 1];
      }
    }
    forall i, j | 0 <= i < j < |at|
      ensures at[i] < at[j]
    {
      assert at[j] == up[j - 1];
      assert i > 0 ==> at[i] == up[i - 1];
    }
  }

  /** One more element in front, which is picked if `take`. */
  lemma PickedNext<T>(sub: seq<T>, list: seq<T>, at: seq<nat>, x: T, take: bool) returns (up: seq<nat>)
    requires PickedAt(sub, list, at)
    ensures PickedAt((if take then [x] else []) + sub, [x] + list, up)
    ensures forall j: nat :: j in up <==> (j == 0 && take) || (j > 0 && j - 1 in at)
  {
    up := Shifted(sub, list, at, x);
    forall j: nat
      ensures j in up <==> j > 0 && j - 1 in at
    {
      if j > 0 && j - 1 in at {
        var i :| 0 <= i < |at| && at[i] == j - 1;
        assert up[i] == j;
      }
    }
    if take {
      Prepended(sub, list, up, x);
      up := [0] + up;
    } else {
      assert [] + sub == sub;
    }
  }

  lemma {:induction false} PickedInTurn<T>(sub: seq<T>, list: seq<T>, at: seq<nat>, i: nat)
    requires PickedAt(sub, list, at) && (forall j: nat :: j < |list| ==> j in at) && i < |list|
    ensures i < |at| && at[i] == i
  {
    assert i in at;
    var n :| 0 <= n < |at| && at[n] == i;
    if i > 0 {
      PickedInTurn(sub, list, at, i - 1);
    }
  }

  lemma {:induction false} NotBefore<T>(sub: seq<T>, list: seq<T>, at: seq<nat>, i: nat)
    requires PickedAt(sub, list, at) && i < |at|
    ensures i <= at[i] < |list|
  {
    if i > 0 {
      NotBefore(sub, list, at, i - 1);
    }
  }

  /** If every position is picked the result is the whole list. */
  lemma AllPicked<T>(sub: seq<T>, list: seq<T>, at: seq<nat>)
    requires PickedAt(sub, list, at) && forall j: nat :: j < |list| ==> j in at
    ensures sub == list
  {
    forall i | 0 <= i < |list|
      ensures i < |at| && at[i] == i
    {
      PickedInTurn(sub, list, at, i);
    }
    if at != [] {
      NotBefore(sub, list, at, |at| - 1);
    }
    if list != [] {
      PickedInTurn(sub, list, at, |list| - 1);
    }
  }
}
