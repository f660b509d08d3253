/** One pass of the policy controller over its matching clusters, and runs of such passes. */
module PolicyPass {
  import opened Api
  import opened Remote
  import opened Admission

  type Stores = map<ClusterKey, Store>

  /** Faults by cluster and call: connect 0, then get 1, write 2 and probe 3, or delete 1. */
  type PassFaults = ClusterKey -> Faults

  /** The policy controller wants both readiness signals, and the annotation. */
  predicate ReadyForPolicy(c: Cluster) {
    c.controlPlaneReady && c.readyCondition
  }

  predicate Gate(c: Cluster) {
    ReadyForPolicy(c) && HasAnnotation(c, INSTALLED)
  }

  /** The object that an undisturbed create or update leaves under the policy's key. */
  function Wanted(p: PolicySpec, s: Store): Obj {
    var k := Target(p);
    if k in s then s[k].(content := Policy(BuildSpec(p))) else Obj(Policy(BuildSpec(p)), [], false)
  }

  function Written(p: PolicySpec, s: Store): Store {
    s[Target(p) := Wanted(p, s)]
  }

  datatype Rollout = Rollout(store: Store, ok: bool, active: bool)

  /** deployPolicy: get, create or update, probe. */
  function Deploy(p: PolicySpec, s: Store, f: Faults): Rollout {
    if f(1) != Fine then
      Rollout(s, false, false)
    else
      var t := if f(2) == Refused then s else Written(p, s);
      if f(2) != Fine || f(3) != Fine then Rollout(t, false, false)
      else Rollout(t, true, t[Target(p)].active)
  }

  datatype Deployed = Deployed(cluster: ClusterKey, policyName: string, policyType: string, active: bool)

  /** What the pass makes of one cluster. */
  datatype Visit = Visit(store: Store, entry: Option<Deployed>, ready: bool)

  function VisitOn(p: PolicySpec, c: Cluster, s: Store, f: Faults): Visit {
    if !Gate(c) || f(0) != Fine then
      Visit(s, None, false)
    else
      var d := Deploy(p, s, f);
      Visit(d.store, Some(Deployed(c.key, p.policyName, p.policyType, d.active)), d.ok)
  }

  datatype PassResult = PassResult(stores: Stores, deployed: seq<Deployed>, ready: bool)

  function Loop(stores: Stores, p: PolicySpec, list: seq<Cluster>, f: PassFaults): PassResult
    decreases |list|
  {
    if list == [] then
      PassResult(stores, [], true)
    else
      var c := list[0];
      if c.key !in stores then
        Loop(stores, p, list[1..], f).(ready := false)
      else
        var v := VisitOn(p, c, stores[c.key], f(c.key));
        var r := Loop(stores[c.key := v.store], p, list[1..], f);
        PassResult(r.stores, (if v.entry.Some? then [v.entry.value] else []) + r.deployed, v.ready && r.ready)
  }

  // ----- the pass cluster by cluster -----

  /** The entries of the pass, each computed from the store its cluster had before the pass. */
  function Entries(stores: Stores, p: PolicySpec, list: seq<Cluster>, f: PassFaults): seq<Deployed> {
    if list == [] then []
    else
      var c := list[0];
      (if c.key in stores && VisitOn(p, c, stores[c.key], f(c.key)).entry.Some?
       then [VisitOn(p, c, stores[c.key], f(c.key)).entry.value] else [])
      + Entries(stores, p, list[1..], f)
  }

  predicate VisitReady(stores: Stores, p: PolicySpec, c: Cluster, f: PassFaults) {
    c.key in stores && VisitOn(p, c, stores[c.key], f(c.key)).ready
  }

  lemma {:induction false} EntriesFrame(stores: Stores, stores': Stores, p: PolicySpec, list: seq<Cluster>,
                                        f: PassFaults)
    requires stores.Keys == stores'.Keys
    requires forall c :: c in list && c.key in stores ==> stores'[c.key] == stores[c.key]
    ensures Entries(stores, p, list, f) == Entries(stores', p, list, f)
  {
    if list != [] {
      assert list == [list[0]] + list[1..];
      EntriesFrame(stores, stores', p, list[1..], f);
    }
  }

  lemma {:induction false} StoresPointwise(stores: Stores, p: PolicySpec, list: seq<Cluster>, f: PassFaults)
    requires Distinct(list)
    ensures var r := Loop(stores, p, list, f).stores;
            && r.Keys == stores.Keys
            && (forall c :: c in list && c.key in stores ==> r[c.key] == VisitOn(p, c, stores[c.key], f(c.key)).store)
            && (forall k :: k in stores && k !in Keys(list) ==> r[k] == stores[k])
    decreases |list|
  {
    if list != [] {
      var c := list[0];
      var rest := list[1..];
      assert list == [c] + rest;
      assert c.key !in Keys(rest);
      StoresPointwise(if c.key in stores then stores[c.key := VisitOn(p, c, stores[c.key], f(c.key)).store] else stores,
                      p, rest, f);
    }
  }

  lemma {:induction false} EntriesPointwise(stores: Stores, p: PolicySpec, list: seq<Cluster>, f: PassFaults)
    requires Distinct(list)
    ensures Loop(stores, p, list, f).deployed == Entries(stores, p, list, f)
    decreases |list|
  {
    if list != [] {
      var c := list[0];
      var rest := list[1..];
      assert c.key !in Keys(rest);
      if c.key in stores {
        var stores1 := stores[c.key := VisitOn(p, c, stores[c.key], f(c.key)).store];
        EntriesPointwise(stores1, p, rest, f);
        EntriesFrame(stores, stores1, p, rest, f);
      } else {
        EntriesPointwise(stores, p, rest, f);
      }
    }
  }

  lemma {:induction false} ReadyPointwise(stores: Stores, p: PolicySpec, list: seq<Cluster>, f: PassFaults)
    requires Distinct(list)
    ensures Loop(stores, p, list, f).ready <==> forall c :: c in list ==> VisitReady(stores, p, c, f)
    decreases |list|
  {
    if list != [] {
      var c := list[0];
      var rest := list[1..];
      assert list == [c] + rest;
      if c.key in stores {
        var stores1 := stores[c.key := VisitOn(p, c, stores[c.key], f(c.key)).store];
        ReadyPointwise(stores1, p, rest, f);
        forall d | d in rest
          ensures VisitReady(stores, p, d, f) <==> VisitReady(stores1, p, d, f)
        {
          assert d.key != c.key;
        }
        assert VisitReady(stores, p, c, f) <==> VisitOn(p, c, stores[c.key], f(c.key)).ready;
      } else {
        assert !VisitReady(stores, p, c, f);
      }
    }
  }

  /** With distinct clusters nothing one visit does is seen by another: each store, each entry and the verdict
      are functions of the cluster's own store before the pass and its own faults. */
  lemma PassIsPointwise(stores: Stores, p: PolicySpec, list: seq<Cluster>, f: PassFaults)
    requires Distinct(list)
    ensures var r := Loop(stores, p, list, f);
            && r.stores.Keys == stores.Keys
            && (forall c :: c in list && c.key in stores ==>
                 r.stores[c.key] == VisitOn(p, c, stores[c.key], f(c.key)).store)
            && (forall k :: k in stores && k !in Keys(list) ==> r.stores[k] == stores[k])
            && r.deployed == Entries(stores, p, list, f)
            && (r.ready <==> forall c :: c in list ==> VisitReady(stores, p, c, f))
  {
    StoresPointwise(stores, p, list, f);
    EntriesPointwise(stores, p, list, f);
    ReadyPointwise(stores, p, list, f);
  }

  // ----- order does not matter -----

  lemma {:induction false} EntriesConcat(stores: Stores, p: PolicySpec, a: seq<Cluster>, b: seq<Cluster>, f: PassFaults)
    ensures Entries(stores, p, a + b, f) == Entries(stores, p, a, f) + Entries(stores, p, b, f)
  {
    if a == [] {
      assert a + b == b;
    } else {
      assert (a + b)[1..] == a[1..] + b;
      EntriesConcat(stores, p, a[1..], b, f);
    }
  }

  lemma {:induction false} EntriesPermute(stores: Stores, p: PolicySpec, a: seq<Cluster>, b: seq<Cluster>,
                                          f: PassFaults)
    requires multiset(a) == multiset(b)
    ensures multiset(Entries(stores, p, a, f)) == multiset(Entries(stores, p, b, f))
  {
    if a == [] {
      assert |multiset(b)| == 0;
    } else {
      assert a[0] in multiset(b);
      var i :| 0 <= i < |b| && b[i] == a[0];
      var rest := b[..i] + b[i + 1..];
      assert a == [a[0]] + a[1..];
      assert b == b[..i] + ([b[i]] + b[i + 1..]);
      RemoveSame(a, b, i);
      EntriesPermute(stores, p, a[1..], rest, f);
      EntriesConcat(stores, p, b[..i], b[i + 1..], f);
      EntriesConcat(stores, p, [b[i]], b[i + 1..], f);
      EntriesConcat(stores, p, b[..i], [b[i]] + b[i + 1..], f);
      EntriesConcat(stores, p, [a[0]], a[1..], f);
    }
  }

  lemma SameElements(a: seq<Cluster>, b: seq<Cluster>)
    requires multiset(a) == multiset(b)
    ensures forall c :: c in a <==> c in b
  {
    forall c
      ensures c in a <==> c in b
    {
      assert c in a <==> c in multiset(a);
      assert c in b <==> c in multiset(b);
    }
  }

  /** The pass reports a cluster's own entry once if the visit gives one, and nothing else about that cluster. */
  lemma {:induction false} EntryCount(stores: Stores, p: PolicySpec, list: seq<Cluster>, f: PassFaults, c: Cluster,
                                      e: Deployed)
    requires Distinct(list) && c in list && e.cluster == c.key
    ensures multiset(Loop(stores, p, list, f).deployed)[e] ==
            if c.key in stores && VisitOn(p, c, stores[c.key], f(c.key)).entry == Some(e) then 1 else 0
    ensures e in Loop(stores, p, list, f).deployed <==>
            c.key in stores && VisitOn(p, c, stores[c.key], f(c.key)).entry == Some(e)
  {
    PassIsPointwise(stores, p, list, f);
    CountEntries(stores, p, list, f, c, e);
    assert e in Entries(stores, p, list, f) <==> multiset(Entries(stores, p, list, f))[e] > 0;
  }

  lemma {:induction false} NoEntries(stores: Stores, p: PolicySpec, list: seq<Cluster>, f: PassFaults, e: Deployed)
    requires e.cluster !in Keys(list)
    ensures multiset(Entries(stores, p, list, f))[e] == 0
  {
    if list != [] {
      assert list[0].key in Keys(list);
      NoEntries(stores, p, list[1..], f, e);
    }
  }

  lemma {:induction false} CountEntries(stores: Stores, p: PolicySpec, list: seq<Cluster>, f: PassFaults, c: Cluster,
                                        e: Deployed)
    requires Distinct(list) && c in list && e.cluster == c.key
    ensures multiset(Entries(stores, p, list, f))[e] ==
            if c.key in stores && VisitOn(p, c, stores[c.key], f(c.key)).entry == Some(e) then 1 else 0
  {
    var rest := list[1..];
    assert list == [list[0]] + rest;
    if c == list[0] {
      assert c.key !in Keys(rest);
      NoEntries(stores, p, rest, f, e);
    } else {
      assert c in rest && list[0].key != c.key;
      CountEntries(stores, p, rest, f, c, e);
    }
  }

  /** What happens on one cluster depends on nothing but its own store, its listing and its own faults: its store and
      its entries after the pass are the same whatever the other clusters, their failures and their stores. */
  lemma FailureIsolation(stores: Stores, stores': Stores, p: PolicySpec, a: seq<Cluster>, b: seq<Cluster>,
                         f: PassFaults, g: PassFaults, c: Cluster)
    requires Distinct(a) && Distinct(b) && c in a && c in b
    requires c.key in stores && c.key in stores' && stores[c.key] == stores'[c.key]
    requires f(c.key) == g(c.key)
    ensures var s, t := Loop(stores, p, a, f).stores, Loop(stores', p, b, g).stores;
            c.key in s && c.key in t && s[c.key] == t[c.key]
    ensures forall e: Deployed :: e.cluster == c.key ==>
              multiset(Loop(stores, p, a, f).deployed)[e] == multiset(Loop(stores', p, b, g).deployed)[e]
  {
    StoresPointwise(stores, p, a, f);
    StoresPointwise(stores', p, b, g);
    forall e: Deployed | e.cluster == c.key
      ensures multiset(Loop(stores, p, a, f).deployed)[e] == multiset(Loop(stores', p, b, g).deployed)[e]
    {
      EntryCount(stores, p, a, f, c, e);
      EntryCount(stores', p, b, g, c, e);
    }
  }

  // ----- passes of several policies -----

  datatype Job = Job(policy: PolicySpec, list: seq<Cluster>, faults: PassFaults)

  function RunJobs(stores: Stores, jobs: seq<Job>): Stores
    decreases |jobs|
  {
    if jobs == [] then stores else RunJobs(Loop(stores, jobs[0].policy, jobs[0].list, jobs[0].faults).stores, jobs[1..])
  }

  /** The faults let the pass write on this cluster. */
  predicate Takes(f: Faults) {
    f(0) == Fine && f(1) == Fine && f(2) != Refused
  }

  lemma VisitEffect(p: PolicySpec, c: Cluster, s: Store, f: Faults)
    ensures VisitOn(p, c, s, f).store == if Gate(c) && Takes(f) then Written(p, s) else s
  {
  }

  /** The pass of a job writes on cluster `k`. */
  ghost predicate Reaches(j: Job, k: ClusterKey) {
    exists c :: c in j.list && c.key == k && Takes(j.faults(k))
                && c.controlPlaneReady && c.readyCondition && HasAnnotation(c, INSTALLED)
  }

  lemma SameCluster(list: seq<Cluster>, c: Cluster, d: Cluster)
    requires Distinct(list) && c in list && d in list && c.key == d.key
    ensures c == d
  {
    var i :| 0 <= i < |list| && list[i] == c;
    var j :| 0 <= j < |list| && list[j] == d;
  }

  /** The whole effect of a pass: on the clusters it reaches, and only there, its one object is as wanted. */
  lemma JobEffect(stores: Stores, j: Job)
    requires Distinct(j.list)
    ensures var r := Loop(stores, j.policy, j.list, j.faults).stores;
            && r.Keys == stores.Keys
            && forall k :: k in stores ==> r[k] == if Reaches(j, k) then Written(j.policy, stores[k]) else stores[k]
  {
    PassIsPointwise(stores, j.policy, j.list, j.faults);
    var r := Loop(stores, j.policy, j.list, j.faults).stores;
    forall k | k in stores
      ensures r[k] == if Reaches(j, k) then Written(j.policy, stores[k]) else stores[k]
    {
      if k in Keys(j.list) {
        var c :| c in j.list && c.key == k;
        VisitEffect(j.policy, c, stores[k], j.faults(k));
        forall d | d in j.list && d.key == k
          ensures d == c
        {
          SameCluster(j.list, c, d);
        }
      }
    }
  }

  lemma StoresPermute(stores: Stores, p: PolicySpec, a: seq<Cluster>, b: seq<Cluster>, f: PassFaults)
    requires Distinct(a) && Distinct(b) && forall c :: c in a <==> c in b
    ensures Loop(stores, p, a, f).stores == Loop(stores, p, b, f).stores
  {
    var i, j := Job(p, a, f), Job(p, b, f);
    JobEffect(stores, i);
    JobEffect(stores, j);
    forall k
      ensures Reaches(i, k) <==> Reaches(j, k)
    {
    }
    assert Loop(stores, p, a, f).stores == Loop(stores, p, b, f).stores;
  }

  lemma ReadyPermutes(stores: Stores, p: PolicySpec, a: seq<Cluster>, b: seq<Cluster>, f: PassFaults)
    requires Distinct(a) && Distinct(b) && forall c :: c in a <==> c in b
    ensures Loop(stores, p, a, f).ready == Loop(stores, p, b, f).ready
    ensures Loop(stores, p, a, f).deployed == Entries(stores, p, a, f)
    ensures Loop(stores, p, b, f).deployed == Entries(stores, p, b, f)
  {
    PassIsPointwise(stores, p, a, f);
    PassIsPointwise(stores, p, b, f);
  }

  /** Listing the same clusters in another order permutes the reported entries and changes nothing else. */
  lemma OrderIrrelevant(stores: Stores, p: PolicySpec, a: seq<Cluster>, b: seq<Cluster>, f: PassFaults)
    requires Distinct(a) && Distinct(b) && multiset(a) == multiset(b)
    ensures var r, q := Loop(stores, p, a, f), Loop(stores, p, b, f);
            r.stores == q.stores && r.ready == q.ready && multiset(r.deployed) == multiset(q.deployed)
  {
    SameElements(a, b);
    StoresPermute(stores, p, a, b, f);
    ReadyPermutes(stores, p, a, b, f);
    EntriesPermute(stores, p, a, b, f);
  }

  lemma WrittenCommute(p: PolicySpec, q: PolicySpec, s: Store)
    requires Target(p) != Target(q)
    ensures Written(p, Written(q, s)) == Written(q, Written(p, s))
  {
  }

  lemma JobsCommute(stores: Stores, i: Job, j: Job)
    requires Distinct(i.list) && Distinct(j.list)
    requires forall k :: k in stores && Reaches(i, k) && Reaches(j, k) ==> Target(i.policy) != Target(j.policy)
    ensures RunJobs(stores, [i, j]) == RunJobs(stores, [j, i])
  {
    JobEffect(stores, i);
    JobEffect(stores, j);
    var si := Loop(stores, i.policy, i.list, i.faults).stores;
    var sj := Loop(stores, j.policy, j.list, j.faults).stores;
    JobEffect(si, j);
    JobEffect(sj, i);
    var ij := Loop(si, j.policy, j.list, j.faults).stores;
    var ji := Loop(sj, i.policy, i.list, i.faults).stores;
    forall k | k in stores
      ensures ij[k] == ji[k]
    {
      if Reaches(i, k) && Reaches(j, k) {
        WrittenCommute(i.policy, j.policy, stores[k]);
      }
    }
    assert ij == ji;
    assert [i, j][1..] == [j] && [j, i][1..] == [i];
    assert [j][1..] == [] && [i][1..] == [];
    assert RunJobs(stores, [i, j]) == RunJobs(si, [j]) == RunJobs(ij, []);
    assert RunJobs(stores, [j, i]) == RunJobs(sj, [i]) == RunJobs(ji, []);
  }

  /** No two jobs of the row write the same object: they differ in target, or reach no common cluster. */
  ghost predicate Apart(i: Job, j: Job) {
    Target(i.policy) == Target(j.policy) ==> forall k :: !(Reaches(i, k) && Reaches(j, k))
  }

  ghost predicate AllApart(jobs: seq<Job>) {
    && (forall i :: 0 <= i < |jobs| ==> Distinct(jobs[i].list))
    && (forall i, j :: 0 <= i < j < |jobs| ==> Apart(jobs[i], jobs[j]))
  }

  lemma {:induction false} RunJobsConcat(stores: Stores, a: seq<Job>, b: seq<Job>)
    ensures RunJobs(stores, a + b) == RunJobs(RunJobs(stores, a), b)
    decreases |a|
  {
    if a == [] {
      assert a + b == b;
    } else {
      assert (a + b)[1..] == a[1..] + b;
      RunJobsConcat(Loop(stores, a[0].policy, a[0].list, a[0].faults).stores, a[1..], b);
    }
  }

  lemma SwapFront(stores: Stores, i: Job, j: Job, rest: seq<Job>)
    requires Distinct(i.list) && Distinct(j.list) && Apart(i, j)
    ensures RunJobs(stores, [i] + ([j] + rest)) == RunJobs(stores, [j] + ([i] + rest))
  {
    assert [i] + ([j] + rest) == [i, j] + rest && [j] + ([i] + rest) == [j, i] + rest;
    RunJobsConcat(stores, [i, j], rest);
    RunJobsConcat(stores, [j, i], rest);
    JobsCommute(stores, i, j);
  }

  /** A job can be moved to the front of jobs it is apart from. */
  lemma {:induction false} MoveToFront(stores: Stores, before: seq<Job>, j: Job)
    requires Distinct(j.list) && forall i :: 0 <= i < |before| ==> Distinct(before[i].list) && Apart(before[i], j)
    ensures RunJobs(stores, before + [j]) == RunJobs(stores, [j] + before)
    decreases |before|
  {
    if before == [] {
      assert before + [j] == [j] + before;
    } else {
      var i := before[0];
      var rest := before[1..];
      assert before == [i] + rest && before + [j] == [i] + (rest + [j]);
      RunJobsConcat(stores, [i], rest + [j]);
      MoveToFront(RunJobs(stores, [i]), rest, j);
      RunJobsConcat(stores, [i], [j] + rest);
      assert Apart(before[0], j);
      SwapFront(stores, i, j, rest);
    }
  }

  lemma ApartWithout(jobs: seq<Job>, i: nat)
    requires AllApart(jobs) && i < |jobs|
    ensures AllApart(jobs[..i] + jobs[i + 1..])
  {
    var rest := jobs[..i] + jobs[i + 1..];
    forall m | 0 <= m < |rest|
      ensures rest[m] == jobs[if m < i then m else m + 1]
    {
    }
  }

  lemma PullOut(stores: Stores, jobs: seq<Job>, i: nat)
    requires AllApart(jobs) && i < |jobs|
    ensures RunJobs(stores, jobs) == RunJobs(RunJobs(stores, [jobs[i]]), jobs[..i] + jobs[i + 1..])
  {
    var front, j, back := jobs[..i], jobs[i], jobs[i + 1..];
    assert jobs == (front + [j]) + back;
    RunJobsConcat(stores, front + [j], back);
    MoveToFront(stores, front, j);
    RunJobsConcat(stores, [j], front);
    RunJobsConcat(RunJobs(stores, [j]), front, back);
  }

  lemma ApartBack(a: seq<Job>, b: seq<Job>, i: nat)
    requires AllApart(a) && a != [] && i < |b| && b[i] == a[0] && multiset(a) == multiset(b)
    requires AllApart(b[..i] + b[i + 1..])
    ensures AllApart(b)
  {
    var rest := b[..i] + b[i + 1..];
    RemoveSame(a, b, i);
    forall m | 0 <= m < |b| && m != i
      ensures rest[if m < i then m else m - 1] == b[m] && Apart(a[0], b[m])
    {
      assert b[m] in multiset(rest);
      assert b[m] in multiset(a[1..]);
      assert b[m] in a[1..];
    }
    forall m, n | 0 <= m < n < |b|
      ensures Apart(b[m], b[n])
    {
      assert m != i && n != i ==> Apart(rest[if m < i then m else m - 1], rest[if n < i then n else n - 1]);
    }
  }

  lemma {:induction false} ApartPermutes(a: seq<Job>, b: seq<Job>)
    requires AllApart(a) && multiset(a) == multiset(b)
    ensures AllApart(b)
    decreases |a|
  {
    if a == [] {
      assert |multiset(b)| == 0;
    } else {
      assert a[0] in multiset(b);
      var i :| 0 <= i < |b| && b[i] == a[0];
      RemoveSame(a, b, i);
      ApartWithout(a, 0);
      assert a[..0] + a[1..] == a[1..];
      ApartPermutes(a[1..], b[..i] + b[i + 1..]);
      ApartBack(a, b, i);
    }
  }

  /** Passes of policies with different targets may run in any order: the workload stores end the same. */
  lemma {:induction false} ReconcilesCommute(stores: Stores, a: seq<Job>, b: seq<Job>)
    requires AllApart(a) && multiset(a) == multiset(b)
    ensures RunJobs(stores, a) == RunJobs(stores, b)
    decreases |a|
  {
    ApartPermutes(a, b);
    if a == [] {
      assert |multiset(b)| == 0;
    } else {
      assert a[0] in multiset(b);
      var i :| 0 <= i < |b| && b[i] == a[0];
      RemoveSame(a, b, i);
      PullOut(stores, a, 0);
      assert a[..0] + a[1..] == a[1..];
      PullOut(stores, b, i);
      ApartWithout(a, 0);
      ApartWithout(b, i);
      ReconcilesCommute(RunJobs(stores, [a[0]]), a[1..], b[..i] + b[i + 1..]);
    }
  }

  /** The policy of the last job that wrote object `t` on cluster `k`, if any did. */
  ghost function LastWriter(jobs: seq<Job>, k: ClusterKey, t: ObjKey): Option<PolicySpec> {
    if jobs == [] then None
    else if Reaches(jobs[|jobs| - 1], k) && Target(jobs[|jobs| - 1].policy) == t then Some(jobs[|jobs| - 1].policy)
    else LastWriter(jobs[..|jobs| - 1], k, t)
  }

  /** Where jobs share a target the last writer's spec stands; an object that no job wrote is as it was. */
  lemma {:induction false} LastWriterWins(stores: Stores, jobs: seq<Job>, k: ClusterKey, t: ObjKey)
    requires k in stores && forall i :: 0 <= i < |jobs| ==> Distinct(jobs[i].list)
    ensures k in RunJobs(stores, jobs)
    ensures var s := RunJobs(stores, jobs)[k];
            match LastWriter(jobs, k, t)
            case Some(p) => t in s && s[t].content == Policy(BuildSpec(p))
            case None => (t in s <==> t in stores[k]) && (t in s ==> s[t] == stores[k][t])
    decreases |jobs|
  {
    if jobs != [] {
      var n := |jobs| - 1;
      assert jobs == jobs[..n] + [jobs[n]];
      LastWriterWins(stores, jobs[..n], k, t);
      RunJobsConcat(stores, jobs[..n], [jobs[n]]);
      var s := RunJobs(stores, jobs[..n]);
      assert [jobs[n]][1..] == [];
      assert RunJobs(s, [jobs[n]]) == Loop(s, jobs[n].policy, jobs[n].list, jobs[n].faults).stores;
      JobEffect(s, jobs[n]);
    }
  }

  // ----- convergence -----

  ghost predicate AllGood(stores: Stores, list: seq<Cluster>, f: PassFaults) {
    forall c :: c in list ==>
      && c.controlPlaneReady && c.readyCondition && HasAnnotation(c, INSTALLED)
      && c.key in stores && Healthy(f(c.key))
  }

  lemma WrittenTwice(p: PolicySpec, s: Store)
    ensures Written(p, Written(p, s)) == Written(p, s)
  {
    assert Wanted(p, Written(p, s)) == Wanted(p, s);
  }

  /** A failure-free pass over good clusters writes the wanted object on each and reports Ready. */
  lemma GoodPass(stores: Stores, p: PolicySpec, list: seq<Cluster>, f: PassFaults)
    requires Distinct(list) && AllGood(stores, list, f)
    ensures var r := Loop(stores, p, list, f);
            && r.ready && r.stores.Keys == stores.Keys
            && forall k :: k in stores ==>
                 r.stores[k] == if k in Keys(list) then Written(p, stores[k]) else stores[k]
  {
    PassIsPointwise(stores, p, list, f);
    forall c | c in list
      ensures VisitReady(stores, p, c, f)
      ensures Loop(stores, p, list, f).stores[c.key] == Written(p, stores[c.key])
    {
      VisitEffect(p, c, stores[c.key], f(c.key));
    }
  }

  /** Only the target changes, and of it only the spec; a new one starts inactive. */
  ghost predicate Repaired(p: PolicySpec, s: Store, t: Store) {
    && Target(p) in t && t[Target(p)].content == Policy(BuildSpec(p))
    && (Target(p) in s ==> t[Target(p)] == s[Target(p)].(content := t[Target(p)].content))
    && (Target(p) !in s ==> t[Target(p)].tolerations == [] && !t[Target(p)].active)
    && t.Keys == s.Keys + {Target(p)}
    && (forall o :: o in s && o != Target(p) ==> t[o] == s[o])
  }

  /** Whatever the stores have come to, one failure-free pass with every matching cluster ready and annotated
      gives each target the wanted spec, keeps its status and every other object, and reports Ready; a second
      such pass changes no store. */
  lemma Convergence(stores: Stores, p: PolicySpec, list: seq<Cluster>, f: PassFaults, g: PassFaults)
    requires Distinct(list) && AllGood(stores, list, f) && AllGood(stores, list, g)
    ensures var r := Loop(stores, p, list, f);
            && r.ready
            && r.stores.Keys == stores.Keys
            && (forall k :: k in stores && k !in Keys(list) ==> r.stores[k] == stores[k])
            && (forall c :: c in list ==> Repaired(p, stores[c.key], r.stores[c.key]))
    ensures var t := Loop(stores, p, list, f).stores;
            Loop(t, p, list, g).stores == t && Loop(t, p, list, g).ready
  {
    GoodPass(stores, p, list, f);
    var t := Loop(stores, p, list, f).stores;
    GoodPass(t, p, list, g);
    forall k | k in stores
      ensures Loop(t, p, list, g).stores[k] == t[k]
    {
      WrittenTwice(p, stores[k]);
    }
    assert Loop(t, p, list, g).stores == t;
  }

  // ----- deletion -----

  function DeleteOn(p: PolicySpec, s: Store, f: Faults): Store {
    if f(0) != Fine || f(1) == Refused then s else s - {Target(p)}
  }

  /** reconcileDelete: no gates, and failures are logged and passed over. */
  function DeleteLoop(stores: Stores, p: PolicySpec, list: seq<Cluster>, f: PassFaults): Stores
    decreases |list|
  {
    if list == [] then stores
    else
      var k := list[0].key;
      DeleteLoop(if k in stores then stores[k := DeleteOn(p, stores[k], f(k))] else stores, p, list[1..], f)
  }

  /** The deletion removes its target from cluster `k`. */
  predicate Removes(list: seq<Cluster>, f: PassFaults, k: ClusterKey) {
    k in Keys(list) && f(k)(0) == Fine && f(k)(1) != Refused
  }

  lemma {:induction false} DeleteEffect(stores: Stores, p: PolicySpec, list: seq<Cluster>, f: PassFaults)
    ensures var r := DeleteLoop(stores, p, list, f);
            && r.Keys == stores.Keys
            && forall k :: k in stores ==> r[k] == if Removes(list, f, k) then stores[k] - {Target(p)} else stores[k]
    decreases |list|
  {
    if list != [] {
      var k := list[0].key;
      assert list == [list[0]] + list[1..];
      assert Keys(list) == {k} + Keys(list[1..]);
      var stores1 := if k in stores then stores[k := DeleteOn(p, stores[k], f(k))] else stores;
      DeleteEffect(stores1, p, list[1..], f);
      if k in stores {
        assert stores[k] - {Target(p)} - {Target(p)} == stores[k] - {Target(p)};
      }
    }
  }

  lemma WrittenThenRemoved(p: PolicySpec, s: Store)
    ensures Written(p, s) - {Target(p)} == s - {Target(p)}
    ensures s - {Target(p)} - {Target(p)} == s - {Target(p)}
  {
  }

  lemma DeleteTwice(stores: Stores, p: PolicySpec, list: seq<Cluster>, g: PassFaults)
    requires forall c :: c in list ==> Healthy(g(c.key))
    ensures var r := DeleteLoop(stores, p, list, g); DeleteLoop(r, p, list, g) == r
  {
    DeleteEffect(stores, p, list, g);
    var r := DeleteLoop(stores, p, list, g);
    DeleteEffect(r, p, list, g);
    forall k | k in stores
      ensures DeleteLoop(r, p, list, g)[k] == r[k]
    {
      WrittenThenRemoved(p, stores[k]);
    }
    assert DeleteLoop(r, p, list, g) == r;
  }

  /** Deploying and then deleting the same policy without failures removes the target and nothing else, and
      doing the deletion again changes nothing. */
  lemma DeployThenDelete(stores: Stores, p: PolicySpec, list: seq<Cluster>, f: PassFaults, g: PassFaults)
    requires Distinct(list) && forall c :: c in list ==> Healthy(g(c.key))
    ensures var r := DeleteLoop(Loop(stores, p, list, f).stores, p, list, g);
            && r == DeleteLoop(stores, p, list, g)
            && DeleteLoop(r, p, list, g) == r
  {
    var j := Job(p, list, f);
    JobEffect(stores, j);
    var s := Loop(stores, p, list, f).stores;
    DeleteEffect(s, p, list, g);
    DeleteEffect(stores, p, list, g);
    var r := DeleteLoop(s, p, list, g);
    forall k | k in stores
      ensures r[k] == DeleteLoop(stores, p, list, g)[k]
    {
      WrittenThenRemoved(p, stores[k]);
      assert Reaches(j, k) ==> k in Keys(list);
    }
    assert r == DeleteLoop(stores, p, list, g);
    DeleteTwice(stores, p, list, g);
  }

  predicate Present(stores: Stores, k: ClusterKey, t: ObjKey) {
    k in stores && t in stores[k]
  }

  /** A pass of the controller, for a policy as it was then: a deployment or a deletion. */
  datatype Event = Deploying(job: Job) | Deleting(job: Job)

  function Handle(stores: Stores, e: Event): Stores {
    if e.Deploying? then Loop(stores, e.job.policy, e.job.list, e.job.faults).stores
    else DeleteLoop(stores, e.job.policy, e.job.list, e.job.faults)
  }

  function RunEvents(stores: Stores, events: seq<Event>): Stores {
    if events == [] then stores else Handle(RunEvents(stores, events[..|events| - 1]), events[|events| - 1])
  }

  ghost predicate Puts(e: Event, k: ClusterKey, t: ObjKey) {
    e.Deploying? && Target(e.job.policy) == t && Reaches(e.job, k)
  }

  predicate TakesAway(e: Event, k: ClusterKey, t: ObjKey) {
    e.Deleting? && Target(e.job.policy) == t && Removes(e.job.list, e.job.faults, k)
  }

  /** Event number `i` put object `t` on cluster `k` and no later one took it away. */
  ghost predicate PutsForGood(events: seq<Event>, i: nat, k: ClusterKey, t: ObjKey)
    requires i < |events|
  {
    Puts(events[i], k, t) && forall j :: i < j < |events| ==> !TakesAway(events[j], k, t)
  }

  ghost predicate NeverTaken(events: seq<Event>, k: ClusterKey, t: ObjKey) {
    forall j :: 0 <= j < |events| ==> !TakesAway(events[j], k, t)
  }

  /** Some pass of the history put the object there for good, or it was there before (`initially`) and none took it
      away. */
  ghost predicate Standing(events: seq<Event>, initially: bool, k: ClusterKey, t: ObjKey) {
    (initially && NeverTaken(events, k, t)) || exists i :: 0 <= i < |events| && PutsForGood(events, i, k, t)
  }

  lemma PutsForGoodUnfolds(events: seq<Event>, i: nat, k: ClusterKey, t: ObjKey)
    requires i < |events|
    ensures var n := |events| - 1;
            PutsForGood(events, i, k, t) <==>
            if i == n then Puts(events[n], k, t)
            else PutsForGood(events[..n], i, k, t) && !TakesAway(events[n], k, t)
  {
    var n := |events| - 1;
    assert forall j :: 0 <= j < n ==> events[..n][j] == events[j];
  }

  lemma NeverTakenUnfolds(events: seq<Event>, k: ClusterKey, t: ObjKey)
    requires events != []
    ensures var n := |events| - 1;
            NeverTaken(events, k, t) <==> NeverTaken(events[..n], k, t) && !TakesAway(events[n], k, t)
  {
    var n := |events| - 1;
    assert forall j :: 0 <= j < n ==> events[..n][j] == events[j];
  }

  lemma StandingUnfolds(events: seq<Event>, initially: bool, k: ClusterKey, t: ObjKey)
    requires events != []
    ensures var n := |events| - 1;
            Standing(events, initially, k, t) <==>
            Puts(events[n], k, t) || (!TakesAway(events[n], k, t) && Standing(events[..n], initially, k, t))
  {
    var n := |events| - 1;
    NeverTakenUnfolds(events, k, t);
    forall i | 0 <= i < |events|
      ensures PutsForGood(events, i, k, t) <==>
              if i == n then Puts(events[n], k, t)
              else PutsForGood(events[..n], i, k, t) && !TakesAway(events[n], k, t)
    {
      PutsForGoodUnfolds(events, i, k, t);
    }
    assert Puts(events[n], k, t) ==> PutsForGood(events, n, k, t);
  }

  ghost predicate ProperLists(events: seq<Event>) {
    forall e :: e in events && e.Deploying? ==> Distinct(e.job.list)
  }

  lemma HandlePresence(stores: Stores, e: Event, k: ClusterKey, t: ObjKey)
    requires e.Deploying? ==> Distinct(e.job.list)
    ensures Handle(stores, e).Keys == stores.Keys
    ensures Present(Handle(stores, e), k, t) <==>
            k in stores && (Puts(e, k, t) || (Present(stores, k, t) && !TakesAway(e, k, t)))
  {
    if e.Deploying? {
      JobEffect(stores, e.job);
    } else {
      DeleteEffect(stores, e.job.policy, e.job.list, e.job.faults);
    }
  }

  lemma {:induction false} HistoryPresence(stores: Stores, events: seq<Event>, k: ClusterKey, t: ObjKey)
    requires ProperLists(events)
    ensures RunEvents(stores, events).Keys == stores.Keys
    ensures Present(RunEvents(stores, events), k, t) <==> k in stores && Standing(events, Present(stores, k, t), k, t)
  {
    if events != [] {
      var n := |events| - 1;
      HistoryPresence(stores, events[..n], k, t);
      HandlePresence(RunEvents(stores, events[..n]), events[n], k, t);
      StandingUnfolds(events, Present(stores, k, t), k, t);
    }
  }

  /** After any history of deployment and deletion passes, with the spec, the selector and the labels edited and calls
      failing in between, a failure-free deletion leaves behind exactly what was deployed (or was there before) and not
      deleted since, outside the clusters that match now and the key the policy has now. */
  lemma OrphansExactly(stores: Stores, events: seq<Event>, p: PolicySpec, list: seq<Cluster>, g: PassFaults,
                       k: ClusterKey, t: ObjKey)
    requires ProperLists(events)
    requires forall c :: c in list ==> Healthy(g(c.key))
    ensures Present(DeleteLoop(RunEvents(stores, events), p, list, g), k, t) <==>
            && k in stores
            && Standing(events, Present(stores, k, t), k, t)
            && !(k in Keys(list) && t == Target(p))
  {
    HistoryPresence(stores, events, k, t);
    DeleteEffect(RunEvents(stores, events), p, list, g);
  }

  /** Still standing, and outside the clusters that match now or not under the key the policy has now. */
  ghost predicate Stray(stores: Stores, events: seq<Event>, p: PolicySpec, list: seq<Cluster>, k: ClusterKey,
                        t: ObjKey) {
    && k in stores && IsPolicy(t) && Standing(events, false, k, t)
    && !(k in Keys(list) && t == Target(p))
  }

  predicate PolicyLeft(stores: Stores, k: ClusterKey, t: ObjKey) {
    IsPolicy(t) && Present(stores, k, t)
  }

  lemma LeftIffStray(stores: Stores, events: seq<Event>, p: PolicySpec, list: seq<Cluster>, g: PassFaults,
                     k: ClusterKey, t: ObjKey)
    requires ProperLists(events)
    requires forall c :: c in list ==> Healthy(g(c.key))
    requires !PolicyLeft(stores, k, t)
    ensures PolicyLeft(DeleteLoop(RunEvents(stores, events), p, list, g), k, t) <==>
            Stray(stores, events, p, list, k, t)
  {
    OrphansExactly(stores, events, p, list, g, k, t);
  }

  ghost predicate NoPolicyLeft(stores: Stores) {
    forall k, t :: !PolicyLeft(stores, k, t)
  }

  /** So where no policy object was to begin with, a deletion leaves none exactly when nothing deployed is astray. */
  lemma CleanDeletionIff(stores: Stores, events: seq<Event>, p: PolicySpec, list: seq<Cluster>, g: PassFaults)
    requires ProperLists(events)
    requires forall c :: c in list ==> Healthy(g(c.key))
    requires NoPolicyLeft(stores)
    ensures NoPolicyLeft(DeleteLoop(RunEvents(stores, events), p, list, g)) <==>
            (forall k, t :: !Stray(stores, events, p, list, k, t))
  {
    var r := DeleteLoop(RunEvents(stores, events), p, list, g);
    forall k, t
      ensures PolicyLeft(r, k, t) <==> Stray(stores, events, p, list, k, t)
    {
      assert !PolicyLeft(stores, k, t);
      LeftIffStray(stores, events, p, list, g, k, t);
    }
  }

  // ----- the status the policy reports -----

  datatype Status = Status(ready: bool, matchingClusters: Slice<ObjectReference>, deployedPolicies: Slice<Deployed>)

  /** The status the pass sends. Without matching clusters the old list of matching clusters stays. */
  function StatusAfter(old': Status, list: seq<Cluster>, r: PassResult): Status {
    if list == [] then
      old'.(ready := false, deployedPolicies := Of([]))
    else
      Status(r.ready, Of(Map(Reference, list)), Of(r.deployed))
  }

  /** The three gates in front of a deployment: readiness with both signals, annotation, a client. */
  predicate ThreeGates(stores: Stores, c: Cluster, f: PassFaults) {
    && c.controlPlaneReady && c.readyCondition && HasAnnotation(c, INSTALLED)
    && c.key in stores && f(c.key)(0) == Fine
  }

  function Names(entries: seq<Deployed>): (ks: seq<ClusterKey>)
    ensures |ks| == |entries| && forall i :: 0 <= i < |entries| ==> ks[i] == entries[i].cluster
  {
    if entries == [] then [] else [entries[0].cluster] + Names(entries[1..])
  }

  lemma NamesCons(d: Deployed, rest: seq<Deployed>)
    ensures Names([d] + rest) == [d.cluster] + Names(rest)
    ensures [] + rest == rest && [] + Names(rest) == Names(rest)
  {
    assert ([d] + rest)[1..] == rest;
  }

  lemma EntryThrough(stores: Stores, p: PolicySpec, c: Cluster, f: PassFaults)
    requires c.key in stores
    ensures var e := VisitOn(p, c, stores[c.key], f(c.key)).entry;
            (e.Some? <==> ThreeGates(stores, c, f)) && (e.Some? ==> e.value.cluster == c.key)
  {
  }

  lemma NamesUnfold(stores: Stores, p: PolicySpec, list: seq<Cluster>, f: PassFaults)
    requires list != []
    ensures Names(Entries(stores, p, list, f)) ==
            (if ThreeGates(stores, list[0], f) then [list[0].key] else []) + Names(Entries(stores, p, list[1..], f))
  {
    var c, rest := list[0], Entries(stores, p, list[1..], f);
    var d := Deployed(c.key, p.policyName, p.policyType, false);
    if c.key in stores {
      EntryThrough(stores, p, c, f);
      if ThreeGates(stores, c, f) {
        d := VisitOn(p, c, stores[c.key], f(c.key)).entry.value;
      }
    }
    NamesCons(d, rest);
    assert Entries(stores, p, list, f) == (if ThreeGates(stores, c, f) then [d] else []) + rest;
  }

  lemma {:induction false} EntriesPicked(stores: Stores, p: PolicySpec, list: seq<Cluster>, f: PassFaults)
    returns (at: seq<nat>)
    ensures PickedAt(Names(Entries(stores, p, list, f)), Map((c: Cluster) => c.key, list), at)
    ensures forall j: nat :: j in at <==> j < |list| && ThreeGates(stores, list[j], f)
  {
    at := [];
    if list != [] {
      var c, rest := list[0], list[1..];
      var key := (c: Cluster) => c.key;
      at := EntriesPicked(stores, p, rest, f);
      at := PickedNext(Names(Entries(stores, p, rest, f)), Map(key, rest), at, c.key, ThreeGates(stores, c, f));
      assert Map(key, list) == [c.key] + Map(key, rest);
      NamesUnfold(stores, p, list, f);
    }
  }

  predicate ErrorFree(stores: Stores, c: Cluster, f: PassFaults) {
    ThreeGates(stores, c, f) && f(c.key)(1) == Fine && f(c.key)(2) == Fine && f(c.key)(3) == Fine
  }

  /** Ready is reported exactly when there are matching clusters and every one of them has both signals and the
      annotation and none of its four calls failed; each then holds the wanted spec. */
  lemma ReadyIff(stores: Stores, p: PolicySpec, list: seq<Cluster>, f: PassFaults, old': Status)
    requires Distinct(list)
    ensures StatusAfter(old', list, Loop(stores, p, list, f)).ready <==>
      && list != []
      && forall c :: c in list ==>
           && c.controlPlaneReady && c.readyCondition && HasAnnotation(c, INSTALLED)
           && c.key in stores
           && f(c.key)(0) == Fine && f(c.key)(1) == Fine && f(c.key)(2) == Fine && f(c.key)(3) == Fine
    ensures StatusAfter(old', list, Loop(stores, p, list, f)).ready ==>
              var t := Loop(stores, p, list, f).stores;
              forall c :: c in list ==>
                c.key in t && Target(p) in t[c.key] && t[c.key][Target(p)].content == Policy(BuildSpec(p))
  {
    PassIsPointwise(stores, p, list, f);
    forall c
      ensures VisitReady(stores, p, c, f) <==> ErrorFree(stores, c, f)
    {
    }
  }

  lemma StatusEntries(stores: Stores, p: PolicySpec, list: seq<Cluster>, f: PassFaults, old': Status)
    requires Distinct(list)
    ensures var st := StatusAfter(old', list, Loop(stores, p, list, f));
            && st.deployedPolicies.Items() == Entries(stores, p, list, f)
            && (st.ready ==> forall c :: c in list ==> ThreeGates(stores, c, f))
  {
    EntriesPointwise(stores, p, list, f);
    ReadyIff(stores, p, list, f, old');
  }

  /** The entries name, in listing order and once each, exactly the clusters with both signals, the annotation and a
      client; when Ready is reported these are all the matching clusters. */
  lemma EntriesSound(stores: Stores, p: PolicySpec, list: seq<Cluster>, f: PassFaults, old': Status)
    returns (at: seq<nat>)
    requires Distinct(list)
    ensures var st := StatusAfter(old', list, Loop(stores, p, list, f));
            var keys := Map((c: Cluster) => c.key, list);
            && PickedAt(Names(st.deployedPolicies.Items()), keys, at)
            && (st.ready ==> Names(st.deployedPolicies.Items()) == keys)
    ensures forall j: nat :: j in at <==>
      && j < |list|
      && list[j].controlPlaneReady && list[j].readyCondition && HasAnnotation(list[j], INSTALLED)
      && list[j].key in stores && f(list[j].key)(0) == Fine
  {
    StatusEntries(stores, p, list, f, old');
    at := EntriesPicked(stores, p, list, f);
    if StatusAfter(old', list, Loop(stores, p, list, f)).ready {
      AllPicked(Names(Entries(stores, p, list, f)), Map((c: Cluster) => c.key, list), at);
    }
  }

  /** The target was there before the pass, and active. */
  predicate ActiveBefore(stores: Stores, p: PolicySpec, k: ClusterKey) {
    k in stores && Target(p) in stores[k] && stores[k][Target(p)].active
  }

  /** Of a listed cluster there is one entry if it has both signals, the annotation and a client, else none. The entry
      has the names of the policy, and says active exactly if no call of the deployment failed and the target was there
      and active before: what a pass creates it reports as not yet active, what it updates keeps its activity. */
  lemma ActiveIff(stores: Stores, p: PolicySpec, list: seq<Cluster>, f: PassFaults, c: Cluster)
    requires Distinct(list) && c in list
    ensures forall e: Deployed :: e.cluster == c.key ==>
      (e in Loop(stores, p, list, f).deployed <==>
       && c.controlPlaneReady && c.readyCondition && HasAnnotation(c, INSTALLED)
       && c.key in stores && f(c.key)(0) == Fine
       && e.policyName == p.policyName && e.policyType == p.policyType
       && e.active == (&& f(c.key)(1) == Fine && f(c.key)(2) == Fine && f(c.key)(3) == Fine
                       && Target(p) in stores[c.key] && stores[c.key][Target(p)].active))
  {
    forall e: Deployed | e.cluster == c.key
      ensures e in Loop(stores, p, list, f).deployed <==>
              c.key in stores && VisitOn(p, c, stores[c.key], f(c.key)).entry == Some(e)
    {
      EntryCount(stores, p, list, f, c, e);
    }
  }

  /** So a Ready policy is active on all its clusters exactly if it was active on all of them before the pass. */
  lemma ReadyAndActiveIff(stores: Stores, p: PolicySpec, list: seq<Cluster>, f: PassFaults, old': Status)
    requires Distinct(list) && StatusAfter(old', list, Loop(stores, p, list, f)).ready
    ensures (forall e :: e in Loop(stores, p, list, f).deployed ==> e.active) <==>
            (forall c :: c in list ==> ActiveBefore(stores, p, c.key))
  {
    ReadyIff(stores, p, list, f, old');
    forall c | c in list
      ensures ErrorFree(stores, c, f)
    {
    }
    forall c | c in list
      ensures Deployed(c.key, p.policyName, p.policyType, ActiveBefore(stores, p, c.key)) in
              Loop(stores, p, list, f).deployed
    {
      ActiveIff(stores, p, list, f, c);
    }
    forall e | e in Loop(stores, p, list, f).deployed
      ensures exists c :: c in list && c.key == e.cluster && e.active == ActiveBefore(stores, p, c.key)
    {
      EntriesPointwise(stores, p, list, f);
      var c := EntryOwner(stores, p, list, f, e);
      ActiveIff(stores, p, list, f, c);
    }
  }

  lemma {:induction false} EntryOwner(stores: Stores, p: PolicySpec, list: seq<Cluster>, f: PassFaults,
                                      e: Deployed) returns (c: Cluster)
    requires e in Entries(stores, p, list, f)
    ensures c in list && c.key == e.cluster
  {
    c := list[0];
    if c.key != e.cluster {
      c := EntryOwner(stores, p, list[1..], f, e);
    }
  }

  /** The reported list of matching clusters is the current one exactly if some cluster matches or the list was
      empty already. */
  lemma MatchingClustersCurrentIff(old': Status, list: seq<Cluster>, r: PassResult)
    ensures StatusAfter(old', list, r).matchingClusters == Of(Map(Reference, list)) <==>
            list != [] || old'.matchingClusters == Of([])
  {
    assert list == [] ==> Map(Reference, list) == [];
  }

}
