/** One pass of the addon controller over its selected clusters, and runs of such passes. */
module AddonPass {
  import opened Api
  import opened Remote
  import opened Install

  /** The clusters as the management API server holds them, and the workload clusters' stores. */
  datatype World = World(clusters: map<ClusterKey, Cluster>, stores: map<ClusterKey, Store>)

  datatype End = Finished | NotReady | AlreadyInstalled | Failed

  datatype PassEnd = PassEnd(world: World, end: End)

  /** The environment's choices for one pass. Annotating the cluster is the call after the last of the plan. */
  type PassFaults = ClusterKey -> Faults

  ghost predicate HealthyPass(f: PassFaults) {
    forall k :: Healthy(f(k))
  }

  /** Either readiness signal is enough for the addon controller. */
  predicate ReadyForInstall(c: Cluster) {
    c.controlPlaneReady || c.readyCondition
  }

  predicate Blocked(c: Cluster) {
    !ReadyForInstall(c) || HasAnnotation(c, INSTALLED)
  }

  function AnnotateOn(w: World, k: ClusterKey, f: Fault): PassEnd {
    PassEnd(
      if f != Refused && k in w.clusters then w.(clusters := w.clusters[k := Annotated(w.clusters[k])]) else w,
      if f == Fine && k in w.clusters then Finished else Failed)
  }

  /** Connect, install, annotate. */
  function InstallOn(w: World, b: Bundle, k: ClusterKey, f: Faults): PassEnd {
    if k !in w.stores then
      PassEnd(w, Failed)
    else
      var r := Run(Plan(b), f, 0, w.stores[k]);
      var w1 := w.(stores := w.stores[k := r.store]);
      if r.ok then AnnotateOn(w1, k, f(|Plan(b)|)) else PassEnd(w1, Failed)
  }

  /** The pass over the clusters as they were listed. An annotated cluster ends it, like one that is not ready. */
  function Loop(w: World, b: Bundle, list: seq<Cluster>, f: PassFaults): PassEnd
    decreases |list|
  {
    if list == [] then
      PassEnd(w, Finished)
    else if !ReadyForInstall(list[0]) then
      PassEnd(w, NotReady)
    else if HasAnnotation(list[0], INSTALLED) then
      PassEnd(w, AlreadyInstalled)
    else
      var e := InstallOn(w, b, list[0].key, f(list[0].key));
      if e.end == Failed then e else Loop(e.world, b, list[1..], f)
  }

  /** How many clusters stand in front of the first that is not ready or already annotated. */
  function Frontier(list: seq<Cluster>): (n: nat)
    ensures n <= |list|
    ensures forall i :: 0 <= i < n ==> !Blocked(list[i])
    ensures n < |list| ==> Blocked(list[n])
  {
    if list == [] || Blocked(list[0]) then 0 else 1 + Frontier(list[1..])
  }

  // ----- exact effect of a failure-free pass -----

  /** The world in which exactly the clusters in `ks` have been installed and annotated. */
  ghost predicate InstalledExactly(w: World, b: Bundle, ks: set<ClusterKey>, g: Faults, w': World) {
    && w'.stores.Keys == w.stores.Keys
    && w'.clusters.Keys == w.clusters.Keys
    && (forall k :: k in w.stores ==>
         w'.stores[k] == if k in ks then Run(Plan(b), g, 0, w.stores[k]).store else w.stores[k])
    && (forall k :: k in w.clusters ==>
         w'.clusters[k] == if k in ks then Annotated(w.clusters[k]) else w.clusters[k])
  }

  ghost predicate Known(w: World, list: seq<Cluster>) {
    forall c :: c in list ==> c.key in w.stores && c.key in w.clusters
  }

  lemma InstallOnHealthy(w: World, b: Bundle, k: ClusterKey, f: Faults, g: Faults)
    requires Healthy(f) && Healthy(g) && Installable(b) && k in w.stores && k in w.clusters
    ensures InstallOn(w, b, k, f).end == Finished
    ensures InstalledExactly(w, b, {k}, g, InstallOn(w, b, k, f).world)
  {
    InstallSucceedsIff(b, f, w.stores[k]);
    HealthyRunsAgree(Plan(b), f, 0, g, 0, w.stores[k]);
  }

  lemma InstalledInTurn(w: World, b: Bundle, k: ClusterKey, ks: set<ClusterKey>, g: Faults, w1: World, w2: World)
    requires InstalledExactly(w, b, {k}, g, w1) && InstalledExactly(w1, b, ks, g, w2) && k !in ks
    ensures InstalledExactly(w, b, {k} + ks, g, w2)
  {
  }

  /** The first step of a failure-free pass leaves its hypotheses intact for the rest. */
  lemma HealthyStep(w: World, b: Bundle, list: seq<Cluster>, f: PassFaults, g: Faults)
    requires HealthyPass(f) && Healthy(g) && Installable(b) && Distinct(list) && Known(w, list) && list != []
    ensures var e := InstallOn(w, b, list[0].key, f(list[0].key));
            && e.end == Finished
            && InstalledExactly(w, b, {list[0].key}, g, e.world)
            && Known(e.world, list[1..])
            && (Fresh(w, list) ==> Fresh(e.world, list[1..]))
    ensures Distinct(list[1..]) && Known(w, list[1..]) && (Fresh(w, list) ==> Fresh(w, list[1..]))
    ensures forall c :: c in list[1..] ==> c.key != list[0].key
  {
    assert list[0] in list;
    InstallOnHealthy(w, b, list[0].key, f(list[0].key), g);
  }

  function Front(list: seq<Cluster>): set<ClusterKey> {
    Keys(list[..Frontier(list)])
  }

  lemma FrontUnfolds(list: seq<Cluster>)
    ensures list == [] || Blocked(list[0]) ==> Front(list) == {}
    ensures list != [] && !Blocked(list[0]) ==>
      && Front(list) == {list[0].key} + Front(list[1..])
      && (Distinct(list) ==> list[0].key !in Front(list[1..]))
  {
    if list != [] && !Blocked(list[0]) {
      var n := Frontier(list[1..]);
      assert list[..n + 1] == [list[0]] + list[1..][..n];
    }
  }

  /** A failure-free pass installs and annotates exactly the clusters in front of the first blocked one. */
  lemma {:induction false} FrontEffect(w: World, b: Bundle, list: seq<Cluster>, f: PassFaults, g: Faults)
    requires HealthyPass(f) && Healthy(g) && Installable(b) && Distinct(list) && Known(w, list)
    ensures var n := Frontier(list);
            && InstalledExactly(w, b, Front(list), g, Loop(w, b, list, f).world)
            && Loop(w, b, list, f).end ==
               if n == |list| then Finished else if ReadyForInstall(list[n]) then AlreadyInstalled else NotReady
    decreases |list|
  {
    if list != [] && !Blocked(list[0]) {
      var k := list[0].key;
      var rest := list[1..];
      var e := InstallOn(w, b, k, f(k));
      HealthyStep(w, b, list, f, g);
      FrontEffect(e.world, b, rest, f, g);
      FrontUnfolds(list);
      InstalledInTurn(w, b, k, Front(rest), g, e.world, Loop(e.world, b, rest, f).world);
    } else {
      FrontUnfolds(list);
    }
  }

  lemma FrontIs(list: seq<Cluster>, n: nat)
    requires n <= |list| && forall i :: 0 <= i < n ==> !Blocked(list[i])
    requires n < |list| ==> Blocked(list[n])
    ensures Frontier(list) == n && Front(list) == Keys(list[..n])
  {
  }

  /** A failure-free pass installs and annotates exactly the first `n` clusters, where the one behind them is the first
      that has neither readiness signal or is annotated already, and touches nothing else. */
  lemma ExactEffect(w: World, b: Bundle, list: seq<Cluster>, f: PassFaults, g: Faults, n: nat)
    requires HealthyPass(f) && Healthy(g) && Installable(b) && Distinct(list) && Known(w, list)
    requires n <= |list|
    requires forall i :: 0 <= i < n ==>
      (list[i].controlPlaneReady || list[i].readyCondition) && !HasAnnotation(list[i], INSTALLED)
    requires n < |list| ==>
      (!list[n].controlPlaneReady && !list[n].readyCondition) || HasAnnotation(list[n], INSTALLED)
    ensures InstalledExactly(w, b, Keys(list[..n]), g, Loop(w, b, list, f).world)
    ensures Loop(w, b, list, f).end ==
      if n == |list| then Finished
      else if !list[n].controlPlaneReady && !list[n].readyCondition then NotReady
      else AlreadyInstalled
  {
    FrontIs(list, n);
    FrontEffect(w, b, list, f, g);
  }

  // ----- exact effect of any pass -----

  ghost predicate SameOn(w: World, w': World, k: ClusterKey) {
    && (k in w.stores <==> k in w'.stores) && (k in w.stores ==> w'.stores[k] == w.stores[k])
    && (k in w.clusters <==> k in w'.clusters) && (k in w.clusters ==> w'.clusters[k] == w.clusters[k])
  }

  /** The cluster has been installed and annotated, and no call for it has failed that matters. */
  ghost predicate Done(w: World, b: Bundle, k: ClusterKey, f: Faults, w': World) {
    && k in w.stores && k in w'.stores && k in w.clusters && k in w'.clusters
    && Run(Plan(b), f, 0, w.stores[k]) == Outcome(w'.stores[k], true)
    && f(CallCount(b)) == Fine && w'.clusters[k] == Annotated(w.clusters[k])
  }

  /** The pass has failed on this cluster: there is no connection, or the installation failed, or the annotation was
      refused, or only its reply was lost. */
  ghost predicate GaveUp(w: World, b: Bundle, k: ClusterKey, f: Faults, w': World) {
    if k !in w.stores then
      SameOn(w, w', k)
    else
      var r := Run(Plan(b), f, 0, w.stores[k]);
      && k in w'.stores && w'.stores[k] == r.store
      && (k in w.clusters <==> k in w'.clusters)
      && !(r.ok && k in w.clusters && f(CallCount(b)) == Fine)
      && (k in w.clusters ==>
            w'.clusters[k] == if r.ok && f(CallCount(b)) == Lost then Annotated(w.clusters[k]) else w.clusters[k])
  }

  // the call that annotates a cluster follows those of the installation
  lemma InstallOnEffect(w: World, b: Bundle, k: ClusterKey, f: Faults)
    ensures var e := InstallOn(w, b, k, f);
            && (forall j :: j != k ==> SameOn(w, e.world, j))
            && (e.end == Finished ==> Done(w, b, k, f, e.world))
            && (e.end != Finished ==> e.end == Failed && GaveUp(w, b, k, f, e.world))
  {
    PlanCount(b);
  }

  /** The first `n` clusters have a readiness signal and no annotation, and the pass has done them. */
  ghost predicate FirstDone(w: World, b: Bundle, list: seq<Cluster>, f: PassFaults, n: nat, w': World)
    requires n <= |list|
  {
    forall i :: 0 <= i < n ==>
      && (list[i].controlPlaneReady || list[i].readyCondition) && !HasAnnotation(list[i], INSTALLED)
      && Done(w, b, list[i].key, f(list[i].key), w')
  }

  ghost predicate OthersSame(w: World, list: seq<Cluster>, n: nat, w': World)
    requires n <= |list|
  {
    forall k :: (forall i :: 0 <= i < |list| && i <= n ==> list[i].key != k) ==> SameOn(w, w', k)
  }

  /** How the pass ends at cluster `n`, and what it does there. */
  ghost predicate EndsAt(w: World, b: Bundle, list: seq<Cluster>, f: PassFaults, n: nat, e: PassEnd)
    requires n <= |list|
  {
    if n == |list| then e.end == Finished
    else
      var c := list[n];
      if !c.controlPlaneReady && !c.readyCondition then e.end == NotReady && SameOn(w, e.world, c.key)
      else if HasAnnotation(c, INSTALLED) then e.end == AlreadyInstalled && SameOn(w, e.world, c.key)
      else e.end == Failed && GaveUp(w, b, c.key, f(c.key), e.world)
  }

  lemma FirstDoneStep(w: World, b: Bundle, list: seq<Cluster>, f: PassFaults, m: nat, w1: World, w2: World)
    requires Distinct(list) && m < |list| && !Blocked(list[0])
    requires Done(w, b, list[0].key, f(list[0].key), w1) && forall j :: j != list[0].key ==> SameOn(w, w1, j)
    requires FirstDone(w1, b, list[1..], f, m, w2) && SameOn(w1, w2, list[0].key)
    ensures FirstDone(w, b, list, f, m + 1, w2)
  {
    forall i | 0 < i < m + 1
      ensures Done(w, b, list[i].key, f(list[i].key), w2)
    {
      assert list[i] == list[1..][i - 1];
      assert SameOn(w, w1, list[i].key);
    }
  }

  lemma OthersSameStep(w: World, list: seq<Cluster>, m: nat, w1: World, w2: World)
    requires m < |list| && (forall j :: j != list[0].key ==> SameOn(w, w1, j)) && OthersSame(w1, list[1..], m, w2)
    ensures OthersSame(w, list, m + 1, w2)
  {
    forall k | forall i :: 0 <= i < |list| && i <= m + 1 ==> list[i].key != k
      ensures SameOn(w, w2, k)
    {
      assert list[0].key != k && SameOn(w, w1, k);
      forall i | 0 <= i < |list[1..]| && i <= m
        ensures list[1..][i].key != k
      {
        assert list[1..][i] == list[i + 1];
      }
      assert SameOn(w1, w2, k);
    }
  }

  lemma EndsAtStep(w: World, b: Bundle, list: seq<Cluster>, f: PassFaults, m: nat, w1: World, e: PassEnd)
    requires Distinct(list) && m < |list| && forall j :: j != list[0].key ==> SameOn(w, w1, j)
    requires EndsAt(w1, b, list[1..], f, m, e)
    ensures EndsAt(w, b, list, f, m + 1, e)
  {
    if m + 1 < |list| {
      assert list[1..][m] == list[m + 1];
      assert SameOn(w, w1, list[m + 1].key);
    }
  }

  /** What a pass does, whatever fails. It installs and annotates the first `n` clusters, each of which has a readiness
      signal and no annotation. It finishes if these are all; else it ends at the next one, because that has no signal
      or is annotated, or gives up on it in one of the ways above. No other cluster is touched. */
  lemma {:induction false} PassLaw(w: World, b: Bundle, list: seq<Cluster>, f: PassFaults) returns (n: nat)
    requires Distinct(list)
    ensures n <= |list|
    ensures FirstDone(w, b, list, f, n, Loop(w, b, list, f).world)
    ensures OthersSame(w, list, n, Loop(w, b, list, f).world)
    ensures EndsAt(w, b, list, f, n, Loop(w, b, list, f))
    decreases |list|
  {
    n := 0;
    if list != [] && !Blocked(list[0]) {
      var k, rest := list[0].key, list[1..];
      var e := InstallOn(w, b, k, f(k));
      InstallOnEffect(w, b, k, f(k));
      if e.end == Finished {
        var all := Loop(w, b, list, f);
        var m := PassLaw(e.world, b, rest, f);
        n := m + 1;
        assert SameOn(e.world, all.world, k) by {
          assert forall i :: 0 <= i < |rest| && i <= m ==> rest[i].key != k;
        }
        FirstDoneStep(w, b, list, f, m, e.world, all.world);
        OthersSameStep(w, list, m, e.world, all.world);
        EndsAtStep(w, b, list, f, m, e.world, all);
      }
    }
  }

  // ----- what any pass keeps, whatever fails -----

  /** Annotations are only ever set, and no object of a workload cluster is taken away or rewritten. */
  ghost predicate Grows(w: World, w': World) {
    && w'.stores.Keys == w.stores.Keys
    && w'.clusters.Keys == w.clusters.Keys
    && (forall k :: k in w.stores ==> Extends(w.stores[k], w'.stores[k]))
    && (forall k :: k in w.clusters ==> w'.clusters[k] == w.clusters[k] || w'.clusters[k] == Annotated(w.clusters[k]))
  }

  lemma InstallOnGrows(w: World, b: Bundle, k: ClusterKey, f: Faults)
    ensures Grows(w, InstallOn(w, b, k, f).world)
  {
    if k in w.stores {
      RunExtends(Plan(b), f, 0, w.stores[k]);
    }
  }

  lemma AnnotatedTwice(c: Cluster)
    ensures Annotated(Annotated(c)) == Annotated(c)
  {
    assert Annotations(Annotated(c))[INSTALLED := "true"] == Annotations(Annotated(c));
  }

  lemma GrowsTransitive(w: World, w1: World, w2: World)
    requires Grows(w, w1) && Grows(w1, w2)
    ensures Grows(w, w2)
  {
    forall k | k in w.clusters
      ensures w2.clusters[k] == w.clusters[k] || w2.clusters[k] == Annotated(w.clusters[k])
    {
      AnnotatedTwice(w.clusters[k]);
    }
    forall k | k in w.stores
      ensures Extends(w.stores[k], w2.stores[k])
    {
      assert Extends(w.stores[k], w1.stores[k]) && Extends(w1.stores[k], w2.stores[k]);
    }
  }

  lemma {:induction false} LoopGrows(w: World, b: Bundle, list: seq<Cluster>, f: PassFaults)
    ensures Grows(w, Loop(w, b, list, f).world)
    decreases |list|
  {
    if list != [] && !Blocked(list[0]) {
      var e := InstallOn(w, b, list[0].key, f(list[0].key));
      InstallOnGrows(w, b, list[0].key, f(list[0].key));
      if e.end != Failed {
        LoopGrows(e.world, b, list[1..], f);
        GrowsTransitive(w, e.world, Loop(w, b, list, f).world);
      }
    }
  }

  // ----- progress -----

  /** One pass of a run: the list and the Ready field it read, and the faults it met. The listed clusters may be any old
      versions, so their readiness covers every readiness flip between passes. */
  datatype PassInput = PassInput(list: seq<Cluster>, faults: PassFaults, readySeen: bool, statusFault: Fault)

  function After(w: World, b: Bundle, passes: seq<PassInput>): World
    decreases |passes|
  {
    if passes == [] then w else After(Loop(w, b, passes[0].list, passes[0].faults).world, b, passes[1..])
  }

  /** The clusters of a selection that still lack the annotation on the server. */
  function Unannotated(w: World, ks: set<ClusterKey>): set<ClusterKey> {
    set k | k in ks && k in w.clusters && !HasAnnotation(w.clusters[k], INSTALLED)
  }

  lemma SubsetCard<T>(a: set<T>, b: set<T>)
    requires a <= b
    ensures |a| <= |b|
  {
    var rest := b - a;
    assert b == a + rest;
  }

  /** Whatever fails, a pass never raises the number of unannotated clusters, and it can only lower it if the
      first listed cluster is ready and not annotated. */
  lemma ProgressBound(w: World, b: Bundle, list: seq<Cluster>, f: PassFaults, ks: set<ClusterKey>)
    ensures var w' := Loop(w, b, list, f).world;
            && Unannotated(w', ks) <= Unannotated(w, ks)
            && |Unannotated(w', ks)| <= |Unannotated(w, ks)|
            && (|Unannotated(w', ks)| < |Unannotated(w, ks)| ==> list != [] && !Blocked(list[0]))
  {
    LoopGrows(w, b, list, f);
    SubsetCard(Unannotated(Loop(w, b, list, f).world, ks), Unannotated(w, ks));
  }

  /** Over any run, with any lists and any failures, the number never rises. */
  lemma {:induction false} ProgressOverRuns(w: World, b: Bundle, passes: seq<PassInput>, ks: set<ClusterKey>)
    ensures |Unannotated(After(w, b, passes), ks)| <= |Unannotated(w, ks)|
    decreases |passes|
  {
    if passes != [] {
      var p := passes[0];
      ProgressBound(w, b, p.list, p.faults, ks);
      ProgressOverRuns(Loop(w, b, p.list, p.faults).world, b, passes[1..], ks);
    }
  }

  /** The listed clusters carry the annotation exactly where the server's do. */
  ghost predicate Fresh(w: World, list: seq<Cluster>) {
    forall c :: c in list && c.key in w.clusters ==>
      (HasAnnotation(c, INSTALLED) <==> HasAnnotation(w.clusters[c.key], INSTALLED))
  }

  lemma {:induction false} DistinctCard(list: seq<Cluster>)
    requires Distinct(list)
    ensures |Keys(list)| == |list|
  {
    if list != [] {
      DistinctCard(list[1..]);
      assert Keys(list) == {list[0].key} + Keys(list[1..]);
      assert list[0].key !in Keys(list[1..]);
    }
  }

  lemma FrontUnannotated(w: World, list: seq<Cluster>)
    requires Distinct(list) && Known(w, list) && Fresh(w, list)
    ensures Front(list) <= Unannotated(w, Keys(list)) && |Front(list)| == Frontier(list)
  {
    var n := Frontier(list);
    DistinctCard(list[..n]);
    forall k | k in Front(list)
      ensures k in Unannotated(w, Keys(list))
    {
      var i :| 0 <= i < n && list[i].key == k;
      assert list[i] in list;
    }
  }

  lemma UnannotatedAfter(w: World, b: Bundle, front: set<ClusterKey>, g: Faults, w': World, ks: set<ClusterKey>)
    requires InstalledExactly(w, b, front, g, w')
    ensures Unannotated(w', ks) == Unannotated(w, ks) - front
  {
  }

  /** On a fresh list a failure-free pass lowers the number by exactly the length of that front part. */
  lemma ProgressExact(w: World, b: Bundle, list: seq<Cluster>, f: PassFaults)
    requires HealthyPass(f) && Installable(b) && Distinct(list) && Known(w, list) && Fresh(w, list)
    ensures var w' := Loop(w, b, list, f).world;
            |Unannotated(w', Keys(list))| == |Unannotated(w, Keys(list))| - Frontier(list)
  {
    FrontEffect(w, b, list, f, (i: nat) => Fine);
    FrontUnannotated(w, list);
    var before, after := Unannotated(w, Keys(list)), Unannotated(Loop(w, b, list, f).world, Keys(list));
    UnannotatedAfter(w, b, Front(list), (i: nat) => Fine, Loop(w, b, list, f).world, Keys(list));
    CardMinus(before, Front(list));
  }

  lemma FrontIndex(list: seq<Cluster>, j: nat)
    requires Distinct(list) && j < |list|
    ensures list[j].key in Front(list) <==> j < Frontier(list)
  {
    var n := Frontier(list);
    if j < n {
      assert list[..n][j] in list[..n];
    }
  }

  lemma AnnotatedAfter(w: World, b: Bundle, list: seq<Cluster>, f: PassFaults)
    requires HealthyPass(f) && Installable(b) && Distinct(list) && Known(w, list) && Fresh(w, list)
    ensures forall c :: c in list ==>
      (c.key in Unannotated(Loop(w, b, list, f).world, Keys(list)) <==>
       !HasAnnotation(c, INSTALLED) && c.key !in Front(list))
  {
    FrontEffect(w, b, list, f, (i: nat) => Fine);
  }

  /** The documentation promises an installation on all selected clusters. With every cluster ready and nothing
      failing, a pass gets there exactly when no unannotated cluster is listed behind an annotated one. */
  lemma AllAnnotatedIff(w: World, b: Bundle, list: seq<Cluster>, f: PassFaults)
    requires HealthyPass(f) && Installable(b) && Distinct(list) && Known(w, list) && Fresh(w, list)
    requires forall c :: c in list ==> ReadyForInstall(c)
    ensures Unannotated(Loop(w, b, list, f).world, Keys(list)) == {} <==>
            forall i, j :: 0 <= i < j < |list| && HasAnnotation(list[i], INSTALLED) ==>
              HasAnnotation(list[j], INSTALLED)
  {
    var left := Unannotated(Loop(w, b, list, f).world, Keys(list));
    AnnotatedAfter(w, b, list, f);
    if i, j :| 0 <= i < j < |list| && HasAnnotation(list[i], INSTALLED) && !HasAnnotation(list[j], INSTALLED) {
      FrontIndex(list, j);
      assert list[j] in list;
      assert list[j].key in left;
    } else {
      forall c | c in list
        ensures c.key !in left
      {
        var j :| 0 <= j < |list| && list[j] == c;
        FrontIndex(list, j);
        assert Frontier(list) <= j ==> list[Frontier(list)] in list;
      }
    }
  }

  // ----- runs with a fixed selection in a fixed order -----

  ghost predicate Lists(order: seq<ClusterKey>, list: seq<Cluster>) {
    |list| == |order| && forall i :: 0 <= i < |order| ==> list[i].key == order[i]
  }

  ghost predicate NoRepeats(order: seq<ClusterKey>) {
    forall i, j :: 0 <= i < j < |order| ==> order[i] != order[j]
  }

  /** Exactly the first `n` clusters of the order are annotated. */
  ghost predicate AnnotatedPrefix(w: World, order: seq<ClusterKey>, n: nat) {
    && n <= |order|
    && forall i :: 0 <= i < |order| ==>
         order[i] in w.clusters && (HasAnnotation(w.clusters[order[i]], INSTALLED) <==> i < n)
  }

  /** Installing the cluster at position `i`, all before it being annotated, lengthens the prefix by one at most. */
  lemma InstallKeepsPrefix(w: World, b: Bundle, order: seq<ClusterKey>, i: nat, f: Faults, n: nat) returns (m: nat)
    requires NoRepeats(order) && i <= n && i < |order| && AnnotatedPrefix(w, order, n)
    ensures n <= m && AnnotatedPrefix(InstallOn(w, b, order[i], f).world, order, m)
    ensures InstallOn(w, b, order[i], f).end != Failed ==> i < m
  {
    var w' := InstallOn(w, b, order[i], f).world;
    m := if w'.clusters == w.clusters || i < n then n else i + 1;
    assert w'.clusters == w.clusters || w'.clusters == w.clusters[order[i] := Annotated(w.clusters[order[i]])];
    if w'.clusters == w.clusters && i == n {
      assert !HasAnnotation(w'.clusters[order[i]], INSTALLED);
    }
  }

  lemma {:induction false} LoopKeepsPrefix(w: World, b: Bundle, order: seq<ClusterKey>, list: seq<Cluster>, i: nat,
                                           f: PassFaults, n: nat) returns (m: nat)
    requires NoRepeats(order) && Lists(order, list) && i <= n && AnnotatedPrefix(w, order, n)
    ensures n <= m && AnnotatedPrefix(Loop(w, b, list[i..], f).world, order, m)
    decreases |list| - i
  {
    m := n;
    if i < |list| && !Blocked(list[i]) {
      var k := order[i];
      assert list[i..][0].key == k && list[i..][1..] == list[i + 1..];
      var e := InstallOn(w, b, k, f(k));
      m := InstallKeepsPrefix(w, b, order, i, f(k), n);
      if e.end != Failed {
        m := LoopKeepsPrefix(e.world, b, order, list, i + 1, f, m);
      }
    }
  }

  /** From no annotations at all, over any run with any failures and however stale the lists, the annotated
      clusters are always a prefix of the listing order, and the prefix never shrinks. */
  lemma {:induction false} AnnotatedIsPrefix(w: World, b: Bundle, order: seq<ClusterKey>, passes: seq<PassInput>,
                                             n: nat) returns (m: nat)
    requires NoRepeats(order) && AnnotatedPrefix(w, order, n)
    requires forall p :: p in passes ==> Lists(order, p.list)
    ensures n <= m && AnnotatedPrefix(After(w, b, passes), order, m)
    decreases |passes|
  {
    m := n;
    if passes != [] {
      var p := passes[0];
      assert p.list[0..] == p.list;
      var n1 := LoopKeepsPrefix(w, b, order, p.list, 0, p.faults, n);
      m := AnnotatedIsPrefix(Loop(w, b, p.list, p.faults).world, b, order, passes[1..], n1);
    }
  }

  // ----- the status the addon reports -----

  /** The value written to the addon's Ready field at the end of a pass that gets that far. */
  function ReadyValue(list: seq<Cluster>): bool {
    |list| > 0
  }

  /** The server's Ready field after the pass, where `snapshot` is the value the pass had read: the merge
      patch carries the field only if the pass changes it, and only a pass that finished sends one. */
  function ReadyOnServer(server: bool, snapshot: bool, list: seq<Cluster>, end: End, f: Fault): bool {
    if end == Finished && f != Refused && ReadyValue(list) != snapshot then ReadyValue(list) else server
  }

  /** The pass has itself found the cluster ready and unannotated, installed it from start to end, and annotated it. */
  ghost predicate DoneByPass(w: World, b: Bundle, c: Cluster, f: PassFaults, w': World) {
    && (c.controlPlaneReady || c.readyCondition) && !HasAnnotation(c, INSTALLED)
    && c.key in w.stores && Run(Plan(b), f(c.key), 0, w.stores[c.key]).ok
    && c.key in w'.stores && w'.stores[c.key] == Run(Plan(b), f(c.key), 0, w.stores[c.key]).store
    && Installed(b, w'.stores[c.key])
    && c.key in w'.clusters && HasAnnotation(w'.clusters[c.key], INSTALLED)
  }

  lemma InstallOnDoes(w: World, b: Bundle, c: Cluster, f: PassFaults)
    requires !Blocked(c) && InstallOn(w, b, c.key, f(c.key)).end == Finished
    ensures DoneByPass(w, b, c, f, InstallOn(w, b, c.key, f(c.key)).world)
    ensures forall k :: k in w.stores && k != c.key ==> InstallOn(w, b, c.key, f(c.key)).world.stores[k] == w.stores[k]
  {
    InstallCompletes(b, f(c.key), w.stores[c.key]);
  }

  lemma {:induction false} LoopLeavesOthers(w: World, b: Bundle, list: seq<Cluster>, f: PassFaults, k: ClusterKey)
    requires k in w.stores && k !in Keys(list)
    ensures k in Loop(w, b, list, f).world.stores && Loop(w, b, list, f).world.stores[k] == w.stores[k]
    decreases |list|
  {
    if list != [] && !Blocked(list[0]) {
      assert list[0].key in Keys(list);
      var e := InstallOn(w, b, list[0].key, f(list[0].key));
      if e.end != Failed {
        LoopLeavesOthers(e.world, b, list[1..], f, k);
      }
    }
  }

  /** A pass that finishes has done every listed cluster itself. */
  lemma {:induction false} FinishedMeansInstalled(w: World, b: Bundle, list: seq<Cluster>, f: PassFaults, c: Cluster)
    requires Loop(w, b, list, f).end == Finished && Distinct(list) && c in list
    ensures DoneByPass(w, b, c, f, Loop(w, b, list, f).world)
    decreases |list|
  {
    var first := list[0];
    var rest := list[1..];
    var e := InstallOn(w, b, first.key, f(first.key));
    var w' := Loop(w, b, list, f).world;
    InstallOnDoes(w, b, first, f);
    LoopGrows(e.world, b, rest, f);
    if c == first {
      assert first.key !in Keys(rest);
      LoopLeavesOthers(e.world, b, rest, f, first.key);
    } else {
      assert c in rest && c.key != first.key;
      FinishedMeansInstalled(e.world, b, rest, f, c);
    }
  }

  /** Ready turns true on the server only through a pass that itself installed and annotated every selected
      cluster, of which there is at least one. */
  lemma ReadyIsEarned(w: World, b: Bundle, list: seq<Cluster>, f: PassFaults, server: bool, snapshot: bool,
                      patch: Fault)
    requires Distinct(list)
    requires !server && ReadyOnServer(server, snapshot, list, Loop(w, b, list, f).end, patch)
    ensures list != [] && forall c :: c in list ==> DoneByPass(w, b, c, f, Loop(w, b, list, f).world)
  {
    forall c | c in list
      ensures DoneByPass(w, b, c, f, Loop(w, b, list, f).world)
    {
      FinishedMeansInstalled(w, b, list, f, c);
    }
  }

  /** The server's Ready field after a run of passes. */
  function ReadyAfter(server: bool, w: World, b: Bundle, passes: seq<PassInput>): bool
    decreases |passes|
  {
    if passes == [] then server
    else
      var p := passes[0];
      var e := Loop(w, b, p.list, p.faults);
      ReadyAfter(ReadyOnServer(server, p.readySeen, p.list, e.end, p.statusFault), e.world, b, passes[1..])
  }

  // ----- fresh runs: what the first effective pass decides, for good -----

  /** Every pass of the run lists the selection in the fixed order and reads the annotations and the addon's Ready
      field as they are on the server when it starts. Readiness of the clusters and failures are free. */
  ghost predicate FreshRun(w: World, b: Bundle, order: seq<ClusterKey>, passes: seq<PassInput>, server: bool)
    decreases |passes|
  {
    passes == [] ||
    var p := passes[0];
    var e := Loop(w, b, p.list, p.faults);
    && Lists(order, p.list) && Fresh(w, p.list) && p.readySeen == server
    && FreshRun(e.world, b, order, passes[1..], ReadyOnServer(server, p.readySeen, p.list, e.end, p.statusFault))
  }

  lemma FirstListed(w: World, order: seq<ClusterKey>, list: seq<Cluster>, n: nat)
    requires order != [] && NoRepeats(order) && Lists(order, list) && Fresh(w, list) && AnnotatedPrefix(w, order, n)
    ensures list != [] && Distinct(list)
    ensures forall i :: 0 <= i < |list| ==> (HasAnnotation(list[i], INSTALLED) <==> i < n)
  {
    forall i | 0 <= i < |list|
      ensures HasAnnotation(list[i], INSTALLED) <==> i < n
    {
      assert list[i] in list && list[i].key == order[i];
    }
  }

  /** Once any cluster of the selection is annotated, a fresh run changes neither a cluster nor a workload store nor
      the addon's Ready field any more, whatever the readiness of the clusters and whatever fails. */
  lemma {:induction false} FrozenOnceStarted(w: World, b: Bundle, order: seq<ClusterKey>, passes: seq<PassInput>,
                                             server: bool, n: nat)
    requires NoRepeats(order) && AnnotatedPrefix(w, order, n) && 0 < n && FreshRun(w, b, order, passes, server)
    ensures After(w, b, passes) == w && ReadyAfter(server, w, b, passes) == server
    decreases |passes|
  {
    if passes != [] {
      var p := passes[0];
      FirstListed(w, order, p.list, n);
      var e := Loop(w, b, p.list, p.faults);
      assert e.world == w && e.end != Finished;
      FrozenOnceStarted(w, b, order, passes[1..], server, n);
    }
  }

  /** A pass over the whole order that finishes has annotated the whole order. */
  lemma FinishedCompletes(w: World, b: Bundle, order: seq<ClusterKey>, list: seq<Cluster>, f: PassFaults)
    requires NoRepeats(order) && Lists(order, list) && Loop(w, b, list, f).end == Finished
    ensures AnnotatedPrefix(Loop(w, b, list, f).world, order, |order|)
  {
    var w' := Loop(w, b, list, f).world;
    forall i | 0 <= i < |order|
      ensures order[i] in w'.clusters && HasAnnotation(w'.clusters[order[i]], INSTALLED)
    {
      assert list[i].key == order[i];
      FinishedMeansInstalled(w, b, list, f, list[i]);
    }
  }

  lemma PrefixIsUnique(w: World, order: seq<ClusterKey>, m: nat, n: nat)
    requires AnnotatedPrefix(w, order, m) && AnnotatedPrefix(w, order, n)
    ensures m == n
  {
    var k := if m < n then m else n;
    if k < |order| {
      assert HasAnnotation(w.clusters[order[k]], INSTALLED) <==> k < m;
    }
  }

  lemma AfterTake(w: World, b: Bundle, passes: seq<PassInput>, j: nat)
    requires passes != [] && j < |passes|
    ensures After(w, b, passes[..j + 1]) ==
            After(Loop(w, b, passes[0].list, passes[0].faults).world, b, passes[1..][..j])
  {
    assert passes[..j + 1][0] == passes[0] && passes[..j + 1][1..] == passes[1..][..j];
  }

  /** The first pass of a fresh run from an untouched selection either leaves it untouched and reports nothing, or
      annotates some of it, and then nothing changes any more. */
  lemma FirstPassDecides(w: World, b: Bundle, order: seq<ClusterKey>, passes: seq<PassInput>) returns (m: nat)
    requires order != [] && NoRepeats(order) && AnnotatedPrefix(w, order, 0) && FreshRun(w, b, order, passes, false)
    requires passes != []
    ensures var p := passes[0];
            var e := Loop(w, b, p.list, p.faults);
            && AnnotatedPrefix(e.world, order, m)
            && (m == 0 ==> e.end != Finished && FreshRun(e.world, b, order, passes[1..], false)
                           && ReadyAfter(false, w, b, passes) == ReadyAfter(false, e.world, b, passes[1..]))
            && (m > 0 ==> After(w, b, passes) == e.world && !AnnotatedPrefix(e.world, order, 0)
                          && (ReadyAfter(false, w, b, passes) <==> e.end == Finished && p.statusFault != Refused))
  {
    var p := passes[0];
    var e := Loop(w, b, p.list, p.faults);
    assert p.list[0..] == p.list;
    m := LoopKeepsPrefix(w, b, order, p.list, 0, p.faults, 0);
    if e.end == Finished {
      FinishedCompletes(w, b, order, p.list, p.faults);
      PrefixIsUnique(e.world, order, m, |order|);
    }
    if m > 0 {
      FrozenOnceStarted(e.world, b, order, passes[1..], ReadyOnServer(false, false, p.list, e.end, p.statusFault), m);
      if AnnotatedPrefix(e.world, order, 0) {
        PrefixIsUnique(e.world, order, 0, m);
      }
    }
  }

  /** From an untouched selection, the first pass of a fresh run that annotates anything decides everything: before it
      nothing is annotated, after it nothing ever changes, and the addon is Ready at the end exactly if that one pass
      finished and its status patch was not refused. If no pass annotates anything, `i` is the length of the run. */
  lemma {:induction false} OnePassDecides(w: World, b: Bundle, order: seq<ClusterKey>,
                                          passes: seq<PassInput>) returns (i: nat)
    requires order != [] && NoRepeats(order) && AnnotatedPrefix(w, order, 0) && FreshRun(w, b, order, passes, false)
    ensures i <= |passes| && AnnotatedPrefix(After(w, b, passes[..i]), order, 0)
    ensures i == |passes| ==> !ReadyAfter(false, w, b, passes)
    ensures i < |passes| ==>
      var e := Loop(After(w, b, passes[..i]), b, passes[i].list, passes[i].faults);
      && !AnnotatedPrefix(e.world, order, 0)
      && After(w, b, passes) == e.world
      && (ReadyAfter(false, w, b, passes) <==> e.end == Finished && passes[i].statusFault != Refused)
    decreases |passes|
  {
    i := 0;
    if passes != [] {
      var m := FirstPassDecides(w, b, order, passes);
      if m == 0 {
        var j := OnePassDecides(Loop(w, b, passes[0].list, passes[0].faults).world, b, order, passes[1..]);
        i := j + 1;
        AfterTake(w, b, passes, j);
      } else {
        assert passes[..0] == [];
      }
    }
  }

  /** Pass `i` is the first to find its first cluster ready, and finds all clusters ready. */
  ghost predicate Completing(passes: seq<PassInput>, i: nat)
    requires i < |passes| && forall p :: p in passes ==> p.list != []
  {
    && (forall j :: 0 <= j < i ==> !ReadyForInstall(passes[j].list[0]))
    && forall c :: c in passes[i].list ==> ReadyForInstall(c)
  }

  ghost predicate CompletedBy(passes: seq<PassInput>, recorded: bool)
    requires forall p :: p in passes ==> p.list != []
  {
    exists i :: 0 <= i < |passes| && Completing(passes, i) && (recorded ==> passes[i].statusFault != Refused)
  }

  lemma CompletedByUnfolds(passes: seq<PassInput>, recorded: bool)
    requires passes != [] && forall p :: p in passes ==> p.list != []
    ensures passes[0] in passes && forall p :: p in passes[1..] ==> p.list != []
    ensures ReadyForInstall(passes[0].list[0]) ==>
      (CompletedBy(passes, recorded) <==>
       (forall c :: c in passes[0].list ==> ReadyForInstall(c)) && (recorded ==> passes[0].statusFault != Refused))
    ensures !ReadyForInstall(passes[0].list[0]) ==>
      (CompletedBy(passes, recorded) <==> CompletedBy(passes[1..], recorded))
  {
    var rest := passes[1..];
    assert forall p :: p in rest ==> p in passes;
    if ReadyForInstall(passes[0].list[0]) {
      assert Completing(passes, 0) <==> forall c :: c in passes[0].list ==> ReadyForInstall(c);
    } else {
      assert !Completing(passes, 0) by {
        assert passes[0].list[0] in passes[0].list;
      }
      forall i | 0 < i < |passes|
        ensures Completing(passes, i) <==> Completing(rest, i - 1)
      {
        assert passes[i] == rest[i - 1];
        if Completing(rest, i - 1) {
          forall j | 0 <= j < i
            ensures !ReadyForInstall(passes[j].list[0])
          {
            assert j > 0 ==> passes[j] == rest[j - 1];
          }
        }
        if Completing(passes, i) {
          forall j | 0 <= j < i - 1
            ensures !ReadyForInstall(rest[j].list[0])
          {
            assert rest[j] == passes[j + 1];
          }
        }
      }
      if CompletedBy(rest, recorded) {
        var i :| 0 <= i < |rest| && Completing(rest, i) && (recorded ==> rest[i].statusFault != Refused);
        assert Completing(passes, i + 1) && passes[i + 1] == rest[i];
      }
    }
  }

  ghost predicate CleanRun(w: World, b: Bundle, order: seq<ClusterKey>, passes: seq<PassInput>) {
    && order != [] && NoRepeats(order) && Installable(b)
    && (forall k :: k in order ==> k in w.stores && k in w.clusters)
    && FreshRun(w, b, order, passes, false)
    && forall p :: p in passes ==> Lists(order, p.list) && HealthyPass(p.faults)
  }

  lemma KnownFromOrder(w: World, order: seq<ClusterKey>, list: seq<Cluster>)
    requires Lists(order, list) && forall k :: k in order ==> k in w.stores && k in w.clusters
    ensures Known(w, list)
  {
    forall c | c in list
      ensures c.key in w.stores && c.key in w.clusters
    {
      var i :| 0 <= i < |list| && list[i] == c;
      assert c.key == order[i] && order[i] in order;
    }
  }

  /** The decisive pass of a clean run: how far it gets. */
  lemma CleanPassPrefix(w: World, b: Bundle, order: seq<ClusterKey>, p: PassInput)
    requires CleanRun(w, b, order, [p]) && AnnotatedPrefix(w, order, 0)
    ensures p.list != [] && Lists(order, p.list)
    ensures AnnotatedPrefix(Loop(w, b, p.list, p.faults).world, order, Frontier(p.list))
    ensures Loop(w, b, p.list, p.faults).end == Finished <==> Frontier(p.list) == |order|
    ensures Frontier(p.list) == |order| <==> forall c :: c in p.list ==> ReadyForInstall(c)
    ensures Frontier(p.list) == 0 <==> !ReadyForInstall(p.list[0])
  {
    assert p in [p];
    var list := p.list;
    FirstListed(w, order, list, 0);
    KnownFromOrder(w, order, list);
    FrontEffect(w, b, list, p.faults, (i: nat) => Fine);
    var w' := Loop(w, b, list, p.faults).world;
    forall i | 0 <= i < |order|
      ensures order[i] in w'.clusters && (HasAnnotation(w'.clusters[order[i]], INSTALLED) <==> i < Frontier(list))
    {
      FrontIndex(list, i);
    }
    var n := Frontier(list);
    if n < |list| {
      assert list[n] in list && !ReadyForInstall(list[n]);
    }
  }

  /** When a fresh run meets the promise. If no call of the installations fails, a run from an untouched start completes
      the selection exactly if its first pass that finds the first cluster ready finds all clusters ready; and it
      ends Ready exactly if besides that pass's status patch was not refused. */
  lemma {:induction false} CleanRunCompletesIff(w: World, b: Bundle, order: seq<ClusterKey>, passes: seq<PassInput>)
    requires CleanRun(w, b, order, passes) && AnnotatedPrefix(w, order, 0)
    ensures forall p :: p in passes ==> p.list != []
    ensures AnnotatedPrefix(After(w, b, passes), order, |order|) <==> CompletedBy(passes, false)
    ensures ReadyAfter(false, w, b, passes) <==> CompletedBy(passes, true)
    decreases |passes|
  {
    if passes != [] {
      var p, rest := passes[0], passes[1..];
      assert p in passes && forall q :: q in rest ==> q in passes;
      var e := Loop(w, b, p.list, p.faults);
      assert CleanRun(w, b, order, [p]) by {
        assert [p][1..] == [];
      }
      CleanPassPrefix(w, b, order, p);
      CompletedByUnfolds(passes, false);
      CompletedByUnfolds(passes, true);
      if ReadyForInstall(p.list[0]) {
        FrozenOnceStarted(e.world, b, order, rest, ReadyOnServer(false, false, p.list, e.end, p.statusFault),
                          Frontier(p.list));
        if AnnotatedPrefix(e.world, order, |order|) {
          PrefixIsUnique(e.world, order, |order|, Frontier(p.list));
        }
      } else {
        assert e == PassEnd(w, NotReady);
        CleanRunCompletesIff(w, b, order, rest);
      }
    } else {
      if AnnotatedPrefix(w, order, |order|) {
        PrefixIsUnique(w, order, |order|, 0);
      }
    }
  }

  lemma {:induction false} AfterConcat(w: World, b: Bundle, order: seq<ClusterKey>, passes: seq<PassInput>,
                                       more: seq<PassInput>, server: bool)
    requires FreshRun(w, b, order, passes + more, server)
    ensures After(w, b, passes + more) == After(After(w, b, passes), b, more)
    ensures ReadyAfter(server, w, b, passes + more) ==
            ReadyAfter(ReadyAfter(server, w, b, passes), After(w, b, passes), b, more)
    ensures FreshRun(w, b, order, passes, server)
    ensures FreshRun(After(w, b, passes), b, order, more, ReadyAfter(server, w, b, passes))
    decreases |passes|
  {
    if passes == [] {
      assert passes + more == more;
    } else {
      var p := passes[0];
      var e := Loop(w, b, p.list, p.faults);
      assert (passes + more)[0] == p && (passes + more)[1..] == passes[1..] + more;
      AfterConcat(e.world, b, order, passes[1..], more,
                  ReadyOnServer(server, p.readySeen, p.list, e.end, p.statusFault));
    }
  }

  /** So a selection that a fresh run from an untouched start has left neither untouched nor complete stays as it is
      under every fresh continuation, and the addon is never Ready. */
  lemma StuckForEver(w: World, b: Bundle, order: seq<ClusterKey>, passes: seq<PassInput>, more: seq<PassInput>, m: nat)
    requires NoRepeats(order) && AnnotatedPrefix(w, order, 0) && FreshRun(w, b, order, passes + more, false)
    requires AnnotatedPrefix(After(w, b, passes), order, m) && 0 < m < |order|
    ensures After(w, b, passes + more) == After(w, b, passes)
    ensures !ReadyAfter(false, w, b, passes + more)
  {
    AfterConcat(w, b, order, passes, more, false);
    var w1 := After(w, b, passes);
    FrozenOnceStarted(w1, b, order, more, ReadyAfter(false, w, b, passes), m);
    var i := OnePassDecides(w, b, order, passes);
    if i == |passes| {
      assert passes[..i] == passes;
    } else {
      var wi := After(w, b, passes[..i]);
      var e := Loop(wi, b, passes[i].list, passes[i].faults);
      FreshAt(w, b, order, passes, i, false);
      if e.end == Finished {
        FinishedCompletes(wi, b, order, passes[i].list, passes[i].faults);
        PrefixIsUnique(e.world, order, m, |order|);
      }
    }
  }

  lemma {:induction false} FreshAt(w: World, b: Bundle, order: seq<ClusterKey>, passes: seq<PassInput>, i: nat,
                                   server: bool)
    requires FreshRun(w, b, order, passes, server) && i < |passes|
    ensures Lists(order, passes[i].list)
    decreases |passes|
  {
    if i > 0 {
      var p := passes[0];
      var e := Loop(w, b, p.list, p.faults);
      FreshAt(e.world, b, order, passes[1..], i - 1, ReadyOnServer(server, p.readySeen, p.list, e.end, p.statusFault));
    }
  }

  /** A Ready that was earned but not recorded is lost for good: if the pass that annotates the selection finishes and
      its status patch is refused, then after every fresh continuation all clusters are annotated and the addon is
      not Ready. */
  lemma LostReadyStaysLost(w: World, b: Bundle, order: seq<ClusterKey>, passes: seq<PassInput>)
    requires order != [] && NoRepeats(order) && FreshRun(w, b, order, passes, false) && passes != []
    requires Loop(w, b, passes[0].list, passes[0].faults).end == Finished && passes[0].statusFault == Refused
    ensures AnnotatedPrefix(After(w, b, passes), order, |order|)
    ensures !ReadyAfter(false, w, b, passes)
  {
    var e := Loop(w, b, passes[0].list, passes[0].faults);
    FinishedCompletes(w, b, order, passes[0].list, passes[0].faults);
    FrozenOnceStarted(e.world, b, order, passes[1..], false, |order|);
  }

  /** The server's versions of the selected clusters, with every one ready except those in `unready`. */
  function Listing(w: World, order: seq<ClusterKey>, unready: set<ClusterKey>): (list: seq<Cluster>)
    requires forall k :: k in order ==> k in w.clusters
    ensures |list| == |order|
    ensures forall i :: 0 <= i < |order| ==>
      list[i] == w.clusters[order[i]].(key := order[i], controlPlaneReady := order[i] !in unready,
                                       readyCondition := order[i] !in unready)
  {
    seq(|order|, i requires 0 <= i < |order| =>
      assert order[i] in order;
      w.clusters[order[i]].(key := order[i], controlPlaneReady := order[i] !in unready,
                            readyCondition := order[i] !in unready))
  }

  lemma FirstOnly(w: World, b: Bundle, order: seq<ClusterKey>, p: PassInput)
    requires NoRepeats(order) && |order| >= 2 && AnnotatedPrefix(w, order, 0) && HealthyPass(p.faults) && Installable(b)
    requires forall k :: k in order ==> k in w.stores && k in w.clusters
    requires Lists(order, p.list) && Fresh(w, p.list) && !p.readySeen
    requires ReadyForInstall(p.list[0]) && !ReadyForInstall(p.list[1])
    ensures AnnotatedPrefix(Loop(w, b, p.list, p.faults).world, order, 1)
    ensures Loop(w, b, p.list, p.faults).end != Finished
  {
    assert CleanRun(w, b, order, [p]) by {
      assert [p][1..] == [];
    }
    CleanPassPrefix(w, b, order, p);
    FirstListed(w, order, p.list, 0);
    assert Frontier(p.list) == 1;
  }

  /** It happens, from any untouched selection of at least two clusters and any installable bundle, without a single
      failing call: after a pass in which the second cluster is not ready yet, a pass in which all are leaves nothing
      but the first cluster annotated. */
  lemma StuckOccurs(w: World, b: Bundle, order: seq<ClusterKey>, f: PassFaults) returns (passes: seq<PassInput>)
    requires NoRepeats(order) && |order| >= 2 && AnnotatedPrefix(w, order, 0) && HealthyPass(f) && Installable(b)
    requires forall k :: k in order ==> k in w.stores && k in w.clusters
    ensures CleanRun(w, b, order, passes) && forall p :: p in passes ==> p.statusFault == Fine
    ensures |passes| == 2 && forall c :: c in passes[1].list ==> ReadyForInstall(c)
    ensures AnnotatedPrefix(After(w, b, passes), order, 1) && !ReadyAfter(false, w, b, passes)
  {
    var p := PassInput(Listing(w, order, {order[1]}), f, false, Fine);
    passes := TwoPasses(w, b, order, p);
    FirstOnly(w, b, order, p);
    assert FreshRun(Loop(w, b, p.list, f).world, b, order, passes[1..], false);
    FrozenOnceStarted(Loop(w, b, p.list, f).world, b, order, passes[1..], false, 1);
  }

  /** And from any untouched selection: a refused status patch, and then passes in which nothing fails, leave the
      selection complete and the addon not Ready. */
  lemma LostReadyOccurs(w: World, b: Bundle, order: seq<ClusterKey>, f: PassFaults) returns (passes: seq<PassInput>)
    requires NoRepeats(order) && order != [] && AnnotatedPrefix(w, order, 0) && HealthyPass(f) && Installable(b)
    requires forall k :: k in order ==> k in w.stores && k in w.clusters
    ensures CleanRun(w, b, order, passes) && |passes| == 2 && passes[1].statusFault == Fine
    ensures AnnotatedPrefix(After(w, b, passes), order, |order|) && !ReadyAfter(false, w, b, passes)
  {
    var p := PassInput(Listing(w, order, {}), f, false, Refused);
    passes := TwoPasses(w, b, order, p);
    assert ReadyForInstall(p.list[0]);
    CleanRunCompletesIff(w, b, order, passes);
    CompletedByUnfolds(passes, false);
    CompletedByUnfolds(passes, true);
  }

  /** A clean pass followed by a fresh one over ready clusters. */
  lemma TwoPasses(w: World, b: Bundle, order: seq<ClusterKey>, p: PassInput) returns (passes: seq<PassInput>)
    requires NoRepeats(order) && order != [] && Installable(b) && HealthyPass(p.faults)
    requires forall k :: k in order ==> k in w.stores && k in w.clusters
    requires Lists(order, p.list) && Fresh(w, p.list) && !p.readySeen
    ensures |passes| == 2 && passes[0] == p && CleanRun(w, b, order, passes)
    ensures passes[1].statusFault == Fine && forall c :: c in passes[1].list ==> ReadyForInstall(c)
  {
    var e := Loop(w, b, p.list, p.faults);
    LoopGrows(w, b, p.list, p.faults);
    var seen := ReadyOnServer(false, false, p.list, e.end, p.statusFault);
    var q := PassInput(Listing(e.world, order, {}), p.faults, seen, Fine);
    passes := [p, q];
    assert passes[1..] == [q] && [q][1..] == [];
    assert FreshRun(Loop(e.world, b, q.list, q.faults).world, b, order, [],
                    ReadyOnServer(seen, seen, q.list, Loop(e.world, b, q.list, q.faults).end, Fine));
    assert FreshRun(e.world, b, order, [q], seen);
  }

  // ----- a repaired variant, not the code -----

  /** The pass with `continue` in place of `return` for an annotated cluster. */
  function RepairedLoop(w: World, b: Bundle, list: seq<Cluster>, f: PassFaults): PassEnd
    decreases |list|
  {
    if list == [] then
      PassEnd(w, Finished)
    else if !ReadyForInstall(list[0]) then
      PassEnd(w, NotReady)
    else if HasAnnotation(list[0], INSTALLED) then
      RepairedLoop(w, b, list[1..], f)
    else
      var e := InstallOn(w, b, list[0].key, f(list[0].key));
      if e.end == Failed then e else RepairedLoop(e.world, b, list[1..], f)
  }

  function Missing(list: seq<Cluster>): set<ClusterKey> {
    set c | c in list && !HasAnnotation(c, INSTALLED) :: c.key
  }

  lemma MissingUnfolds(list: seq<Cluster>)
    requires list != []
    ensures HasAnnotation(list[0], INSTALLED) ==> Missing(list) == Missing(list[1..])
    ensures !HasAnnotation(list[0], INSTALLED) ==> Missing(list) == {list[0].key} + Missing(list[1..])
    ensures Distinct(list) ==> list[0].key !in Missing(list[1..])
  {
    assert list == [list[0]] + list[1..];
  }

  /** REPAIRED VARIANT. Whatever happened before, one failure-free pass over ready clusters completes the
      selection and touches no cluster that was complete already. */
  lemma {:induction false} RepairedConverges(w: World, b: Bundle, list: seq<Cluster>, f: PassFaults, g: Faults)
    requires HealthyPass(f) && Healthy(g) && Installable(b) && Distinct(list) && Known(w, list) && Fresh(w, list)
    requires forall c :: c in list ==> ReadyForInstall(c)
    ensures var r := RepairedLoop(w, b, list, f);
            && r.end == Finished
            && InstalledExactly(w, b, Missing(list), g, r.world)
    decreases |list|
  {
    if list != [] {
      var k := list[0].key;
      var rest := list[1..];
      HealthyStep(w, b, list, f, g);
      MissingUnfolds(list);
      if HasAnnotation(list[0], INSTALLED) {
        RepairedConverges(w, b, rest, f, g);
      } else {
        var e := InstallOn(w, b, k, f(k));
        RepairedConverges(e.world, b, rest, f, g);
        InstalledInTurn(w, b, k, Missing(rest), g, e.world, RepairedLoop(e.world, b, rest, f).world);
      }
    }
  }

  lemma MissingInstalled(w: World, b: Bundle, list: seq<Cluster>, g: Faults, w': World)
    requires InstalledExactly(w, b, Missing(list), g, w') && Fresh(w, list)
    ensures Unannotated(w', Keys(list)) == {}
  {
    forall c | c in list && c.key in w.clusters
      ensures HasAnnotation(w'.clusters[c.key], INSTALLED)
    {
      assert HasAnnotation(c, INSTALLED) || c.key in Missing(list);
    }
  }

  /** REPAIRED VARIANT. So it completes the selection, which the code as written need not do. */
  lemma RepairedCompletes(w: World, b: Bundle, list: seq<Cluster>, f: PassFaults)
    requires HealthyPass(f) && Installable(b) && Distinct(list) && Known(w, list) && Fresh(w, list)
    requires forall c :: c in list ==> ReadyForInstall(c)
    ensures Unannotated(RepairedLoop(w, b, list, f).world, Keys(list)) == {}
  {
    RepairedConverges(w, b, list, f, (i: nat) => Fine);
    MissingInstalled(w, b, list, (i: nat) => Fine, RepairedLoop(w, b, list, f).world);
  }
}
