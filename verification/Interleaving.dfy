/** Passes of the policy controller in flight at the same time: their calls, in any order, come to passes in turn. */
module Interleaving {
  import opened Api
  import opened Remote
  import opened Admission
  import opened System

  type Job = Policies.Job

  /** The passes of the jobs have been started, pass number `i` for job number `i`, and none has made a call. */
  ghost predicate Started(jobs: seq<Job>, s: State) {
    && (forall i :: i in s.passes <==> 0 <= i < |jobs|)
    && forall i :: 0 <= i < |jobs| ==> s.passes[i] == Deploying(jobs[i].policy, jobs[i].list, AtGate)
  }

  /** The fault that the job has for the next call of its pass. */
  function NextFault(j: Job, pass: Pass): Fault {
    if pass.Deploying? && pass.todo != [] then j.faults(pass.todo[0].key)(CallNumber(pass.step)) else Fine
  }

  ghost predicate MoveStep(s: State, a: Action, s': State) {
    a.Move? && Step(s, a, s')
  }

  /** A run of the system from there in which the passes make their calls, in whatever order. */
  ghost predicate Interleaved(jobs: seq<Job>, states: seq<State>, actions: seq<Action>) {
    && |states| == |actions| + 1
    && Started(jobs, states[0])
    && forall n :: 0 <= n < |actions| ==> MoveStep(states[n], actions[n], states[n + 1])
  }

  /** The faults of the jobs are those that the calls meet. */
  ghost predicate Meets(jobs: seq<Job>, states: seq<State>, actions: seq<Action>) {
    && |states| == |actions| + 1
    && forall n :: 0 <= n < |actions| && MoveStep(states[n], actions[n], states[n + 1]) && actions[n].id < |jobs|
                   && states[n].passes[actions[n].id].todo != [] ==>
         actions[n].fault == NextFault(jobs[actions[n].id], states[n].passes[actions[n].id])
  }

  // ----- what has been written so far -----

  function Lookup(s: Store, t: ObjKey): Option<Obj> {
    if t in s then Some(s[t]) else None
  }

  /** The pass may still write on cluster `k`. */
  predicate Pending(pass: Pass, k: ClusterKey) {
    && pass.Deploying? && k in Keys(pass.todo)
    && !(pass.step.AtProbe? && pass.todo != [] && pass.todo[0].key == k)
  }

  /** The jobs whose passes have written on cluster `k`. */
  ghost function Writers(jobs: seq<Job>, passes: map<nat, Pass>, k: ClusterKey): set<nat> {
    set i: nat | i < |jobs| && Policies.Reaches(jobs[i], k) && !(i in passes && Pending(passes[i], k))
  }

  /** Object `t` of a store that was `first` is what the writer with that target wants, if there is one, and otherwise
      what it was. */
  ghost predicate Settled(jobs: seq<Job>, writers: set<nat>, first: Store, now: Store, t: ObjKey) {
    && (forall i :: i in writers && i < |jobs| && Target(jobs[i].policy) == t ==>
          Lookup(now, t) == Some(Policies.Wanted(jobs[i].policy, first)))
    && ((forall i :: i in writers && i < |jobs| ==> Target(jobs[i].policy) != t) ==> Lookup(now, t) == Lookup(first, t))
  }

  ghost predicate AllSettled(jobs: seq<Job>, passes: map<nat, Pass>, first: Policies.Stores, now: Policies.Stores) {
    && now.Keys == first.Keys
    && forall k, t :: k in first ==> Settled(jobs, Writers(jobs, passes, k), first[k], now[k], t)
  }

  /** Where a pass of the job can be whatever has failed: at a rest of its list. */
  ghost predicate Along(j: Job, pass: Pass) {
    && pass.Deploying? && pass.policy == j.policy
    && |pass.todo| <= |j.list| && pass.todo == j.list[|j.list| - |pass.todo|..]
  }

  /** Where it can be with the job's faults: behind the gate only with the calls before gone through.
      What it read is still there if its write will go through. */
  ghost predicate Underway(j: Job, stores: Policies.Stores, pass: Pass) {
    && Along(j, pass)
    && (!pass.step.AtGate? ==>
          && pass.todo != []
          && var k := pass.todo[0].key;
             && k in stores && Policies.Gate(pass.todo[0]) && j.faults(k)(0) == Fine
             && (pass.step.AtWrite? ==>
                   && j.faults(k)(1) == Fine
                   && (j.faults(k)(2) != Refused ==> pass.step.fetched == Lookup(stores[k], Target(j.policy))))
             && (pass.step.AtProbe? ==> j.faults(k)(1) == Fine && j.faults(k)(2) == Fine))
  }

  ghost predicate Invariant(jobs: seq<Job>, first: Policies.Stores, s: State) {
    && Policies.AllApart(jobs)
    && (forall i :: i in s.passes ==> i < |jobs| && Underway(jobs[i], s.world.stores, s.passes[i]))
    && AllSettled(jobs, s.passes, first, s.world.stores)
  }

  // ----- one call -----

  /** The call is a write, and it goes through. */
  predicate Writes(j: Job, pass: Pass) {
    && pass.Deploying? && pass.step.AtWrite? && pass.todo != []
    && j.faults(pass.todo[0].key)(2) != Refused
  }

  lemma FirstKeys(list: seq<Cluster>, todo: seq<Cluster>)
    requires Distinct(list) && todo != [] && |todo| <= |list| && todo == list[|list| - |todo|..]
    ensures Keys(todo) == {todo[0].key} + Keys(todo[1..]) && todo[0].key !in Keys(todo[1..])
    ensures todo[1..] == list[|list| - |todo[1..]|..]
  {
    assert todo == [todo[0]] + todo[1..];
  }

  lemma FirstInList(j: Job, stores: Policies.Stores, pass: Pass)
    requires Distinct(j.list) && Underway(j, stores, pass) && pass.todo != []
    ensures var c := pass.todo[0];
            && (Policies.Reaches(j, c.key) <==> Policies.Gate(c) && Policies.Takes(j.faults(c.key)))
            && Keys(pass.todo) == {c.key} + Keys(pass.todo[1..]) && c.key !in Keys(pass.todo[1..])
            && pass.todo[1..] == j.list[|j.list| - |pass.todo[1..]|..]
  {
    var c := pass.todo[0];
    FirstKeys(j.list, pass.todo);
    assert j.list[|j.list| - |pass.todo|] == c && c in j.list;
    if Policies.Reaches(j, c.key) {
      var d :| d in j.list && d.key == c.key && Policies.Gate(d);
      Policies.SameCluster(j.list, c, d);
    }
  }

  lemma CallStores(j: Job, w: World, pass: Pass)
    requires Distinct(j.list) && Underway(j, w.stores, pass)
    ensures var m := Advance(w, pass, NextFault(j, pass));
            m.world.stores ==
            if Writes(j, pass) then
              var k := pass.todo[0].key;
              w.stores[k := Policies.Written(j.policy, w.stores[k])]
            else w.stores
    ensures Writes(j, pass) ==> Policies.Reaches(j, pass.todo[0].key) && Pending(pass, pass.todo[0].key)
  {
    if pass.todo != [] {
      FirstInList(j, w.stores, pass);
      var k := pass.todo[0].key;
      if k in w.stores {
        assert w.stores[k := w.stores[k]] == w.stores;
      }
    }
  }

  /** A call leaves its pass where it is in the list, or takes it to the gate of the next cluster. */
  lemma CallGoesOn(j: Job, w: World, pass: Pass)
    requires pass.Deploying? && pass.todo != []
    ensures var m := Advance(w, pass, NextFault(j, pass));
            && m.pass.Some? && m.pass.value.Deploying?
            && (m.pass.value.todo == pass.todo || (m.pass.value.todo == pass.todo[1..] && m.pass.value.step.AtGate?))
  {
  }

  lemma RestUnderway(j: Job, stores: Policies.Stores, pass: Pass, stores': Policies.Stores)
    requires Distinct(j.list) && Underway(j, stores, pass) && pass.todo != []
    ensures Underway(j, stores', Deploying(j.policy, pass.todo[1..], AtGate))
  {
    FirstInList(j, stores, pass);
  }

  lemma CallKeepsUnderway(j: Job, w: World, pass: Pass)
    requires Distinct(j.list) && Underway(j, w.stores, pass)
    ensures var m := Advance(w, pass, NextFault(j, pass));
            m.pass.Some? ==> Underway(j, m.world.stores, m.pass.value)
  {
    if pass.todo != [] {
      CallGoesOn(j, w, pass);
      var m := Advance(w, pass, NextFault(j, pass));
      RestUnderway(j, w.stores, pass, m.world.stores);
      var next := m.pass.value;
      if next.todo == pass.todo {
        match pass.step
        case AtGate =>
          assert next == Deploying(j.policy, pass.todo, AtGet) && m.world == w;
        case AtGet =>
          assert next == Deploying(j.policy, pass.todo, AtWrite(Lookup(w.stores[pass.todo[0].key], Target(j.policy))));
          assert m.world == w;
        case AtWrite(_) =>
          assert next == Deploying(j.policy, pass.todo, AtProbe);
          assert m.world.stores.Keys == w.stores.Keys;
        case AtProbe =>
          assert false;
      } else {
        assert next == Deploying(j.policy, pass.todo[1..], AtGate);
      }
    }
  }

  lemma OthersPending(j: Job, w: World, pass: Pass, k: ClusterKey)
    requires Distinct(j.list) && Underway(j, w.stores, pass) && pass.todo != [] && pass.todo[0].key != k
    ensures Pending(Advance(w, pass, NextFault(j, pass)).pass.value, k) <==> Pending(pass, k)
  {
    FirstInList(j, w.stores, pass);
    CallGoesOn(j, w, pass);
    var next := Advance(w, pass, NextFault(j, pass)).pass.value;
    assert next.todo != pass.todo ==> (Pending(next, k) <==> k in Keys(pass.todo[1..]));
  }

  lemma FirstPending(j: Job, w: World, pass: Pass)
    requires Distinct(j.list) && Underway(j, w.stores, pass) && pass.todo != []
    requires pass.todo[0].key in w.stores && Policies.Reaches(j, pass.todo[0].key)
    ensures Pending(Advance(w, pass, NextFault(j, pass)).pass.value, pass.todo[0].key) <==>
            !pass.step.AtProbe? && !Writes(j, pass)
  {
    FirstInList(j, w.stores, pass);
    CallGoesOn(j, w, pass);
    var k := pass.todo[0].key;
    var m := Advance(w, pass, NextFault(j, pass));
    var next := m.pass.value;
    match pass.step
    case AtGate => assert next == Deploying(pass.policy, pass.todo, AtGet);
    case AtGet => assert next.todo == pass.todo && next.step.AtWrite?;
    case AtWrite(_) => assert next.todo == pass.todo ==> next.step.AtProbe?;
    case AtProbe => assert next.todo == pass.todo[1..];
  }

  /** A write is no longer pending once it is made; no other write of the job ceases to be. */
  lemma CallPending(j: Job, w: World, pass: Pass, k: ClusterKey)
    requires Distinct(j.list) && Underway(j, w.stores, pass) && k in w.stores && Policies.Reaches(j, k)
    ensures var m := Advance(w, pass, NextFault(j, pass));
            (m.pass.Some? && Pending(m.pass.value, k)) <==>
            Pending(pass, k) && !(Writes(j, pass) && pass.todo[0].key == k)
  {
    if pass.todo != [] {
      CallGoesOn(j, w, pass);
      if pass.todo[0].key == k {
        FirstPending(j, w, pass);
        assert pass.todo[0] in pass.todo;
      } else {
        OthersPending(j, w, pass, k);
      }
    }
  }

  // ----- the invariant along an interleaving -----

  predicate WritesOn(j: Job, pass: Pass, k: ClusterKey) {
    Writes(j, pass) && pass.todo[0].key == k
  }

  /** After the call a pass counts as a writer if it did before or if the call is its write. */
  lemma WriterAfter(jobs: seq<Job>, s: State, i: nat, n: nat, k: ClusterKey)
    requires i in s.passes && i < |jobs| && Distinct(jobs[i].list) && k in s.world.stores
    requires Underway(jobs[i], s.world.stores, s.passes[i])
    ensures var s' := MovedState(s, i, NextFault(jobs[i], s.passes[i]));
            n in Writers(jobs, s'.passes, k) <==>
            n in Writers(jobs, s.passes, k) || (n == i && WritesOn(jobs[i], s.passes[i], k))
  {
    CallStores(jobs[i], s.world, s.passes[i]);
    if n == i && Policies.Reaches(jobs[i], k) {
      CallPending(jobs[i], s.world, s.passes[i], k);
    }
  }

  lemma WritersAfter(jobs: seq<Job>, s: State, i: nat, k: ClusterKey)
    requires i in s.passes && i < |jobs| && Distinct(jobs[i].list) && k in s.world.stores
    requires Underway(jobs[i], s.world.stores, s.passes[i])
    ensures var s' := MovedState(s, i, NextFault(jobs[i], s.passes[i]));
            Writers(jobs, s'.passes, k) ==
            Writers(jobs, s.passes, k) + if WritesOn(jobs[i], s.passes[i], k) then {i} else {}
    ensures WritesOn(jobs[i], s.passes[i], k) ==> i !in Writers(jobs, s.passes, k)
  {
    CallStores(jobs[i], s.world, s.passes[i]);
    forall n: nat
      ensures n in Writers(jobs, MovedState(s, i, NextFault(jobs[i], s.passes[i])).passes, k) <==>
              n in Writers(jobs, s.passes, k) || (n == i && WritesOn(jobs[i], s.passes[i], k))
    {
      WriterAfter(jobs, s, i, n, k);
    }
  }

  /** A write settles its own object and leaves the others as they are. */
  lemma WriteSettles(jobs: seq<Job>, writers: set<nat>, first: Store, now: Store, i: nat, t: ObjKey)
    requires i < |jobs| && i !in writers && Settled(jobs, writers, first, now, t)
    requires forall n :: n in writers && n < |jobs| ==> Target(jobs[n].policy) != Target(jobs[i].policy)
    ensures Settled(jobs, writers + {i}, first, Policies.Written(jobs[i].policy, now), t)
  {
    if t == Target(jobs[i].policy) {
      assert Lookup(now, t) == Lookup(first, t);
    }
  }

  lemma OtherWritersTargets(jobs: seq<Job>, s: State, i: nat, k: ClusterKey)
    requires Policies.AllApart(jobs) && i < |jobs| && Policies.Reaches(jobs[i], k) && i !in Writers(jobs, s.passes, k)
    ensures forall n :: n in Writers(jobs, s.passes, k) ==> Target(jobs[n].policy) != Target(jobs[i].policy)
  {
    forall n | n in Writers(jobs, s.passes, k)
      ensures Target(jobs[n].policy) != Target(jobs[i].policy)
    {
      assert n < i ==> Policies.Apart(jobs[n], jobs[i]);
      assert i < n ==> Policies.Apart(jobs[i], jobs[n]);
    }
  }

  lemma MoveSettles(jobs: seq<Job>, first: Policies.Stores, s: State, i: nat)
    requires Invariant(jobs, first, s) && i in s.passes
    ensures var s' := MovedState(s, i, NextFault(jobs[i], s.passes[i]));
            AllSettled(jobs, s'.passes, first, s'.world.stores)
  {
    var j, pass := jobs[i], s.passes[i];
    var s' := MovedState(s, i, NextFault(j, pass));
    CallStores(j, s.world, pass);
    forall k, t | k in first
      ensures Settled(jobs, Writers(jobs, s'.passes, k), first[k], s'.world.stores[k], t)
    {
      WritersAfter(jobs, s, i, k);
      if WritesOn(j, pass, k) {
        OtherWritersTargets(jobs, s, i, k);
        WriteSettles(jobs, Writers(jobs, s.passes, k), first[k], s.world.stores[k], i, t);
      } else {
        assert Writers(jobs, s'.passes, k) == Writers(jobs, s.passes, k);
        assert s'.world.stores[k] == s.world.stores[k];
      }
    }
  }

  /** A write that goes through takes nothing away from a pass that has read another object or cluster. */
  lemma WriteElsewhere(j: Job, stores: Policies.Stores, pass: Pass, k: ClusterKey, t: Store)
    requires Underway(j, stores, pass) && k in stores
    requires WritesOn(j, pass, k) ==> Lookup(t, Target(j.policy)) == Lookup(stores[k], Target(j.policy))
    ensures Underway(j, stores[k := t], pass)
  {
  }

  /** What another pass has read and will replace stays as it was read: two passes do not write the same object. */
  lemma OtherStaysUnderway(jobs: seq<Job>, s: State, i: nat, n: nat)
    requires Policies.AllApart(jobs) && i in s.passes && n in s.passes && i != n && i < |jobs| && n < |jobs|
    requires Underway(jobs[i], s.world.stores, s.passes[i]) && Underway(jobs[n], s.world.stores, s.passes[n])
    ensures Underway(jobs[n], MovedState(s, i, NextFault(jobs[i], s.passes[i])).world.stores, s.passes[n])
  {
    var j, pass, other := jobs[i], s.passes[i], s.passes[n];
    CallStores(j, s.world, pass);
    if Writes(j, pass) {
      var k := pass.todo[0].key;
      if Writes(jobs[n], other) && other.todo[0].key == k {
        CallStores(jobs[n], s.world, other);
        assert if n < i then Policies.Apart(jobs[n], j) else Policies.Apart(j, jobs[n]);
        assert Target(jobs[n].policy) != Target(j.policy);
      }
      WriteElsewhere(jobs[n], s.world.stores, other, k, Policies.Written(j.policy, s.world.stores[k]));
    }
  }

  lemma MoveKeepsInvariant(jobs: seq<Job>, first: Policies.Stores, s: State, i: nat)
    requires Invariant(jobs, first, s) && i in s.passes
    ensures Invariant(jobs, first, MovedState(s, i, NextFault(jobs[i], s.passes[i])))
  {
    var s' := MovedState(s, i, NextFault(jobs[i], s.passes[i]));
    MoveSettles(jobs, first, s, i);
    forall n | n in s'.passes
      ensures n < |jobs| && Underway(jobs[n], s'.world.stores, s'.passes[n])
    {
      if n == i {
        CallKeepsUnderway(jobs[i], s.world, s.passes[i]);
      } else {
        OtherStaysUnderway(jobs, s, i, n);
      }
    }
  }

  lemma StartedInvariant(jobs: seq<Job>, s: State)
    requires Policies.AllApart(jobs) && Started(jobs, s)
    ensures Invariant(jobs, s.world.stores, s)
  {
    forall k, t | k in s.world.stores
      ensures Settled(jobs, Writers(jobs, s.passes, k), s.world.stores[k], s.world.stores[k], t)
    {
      assert Writers(jobs, s.passes, k) == {};
    }
  }

  lemma {:induction false} InvariantThroughout(jobs: seq<Job>, states: seq<State>, actions: seq<Action>, n: nat)
    requires Policies.AllApart(jobs) && Interleaved(jobs, states, actions) && Meets(jobs, states, actions)
    requires n < |states|
    ensures Invariant(jobs, states[0].world.stores, states[n])
  {
    if n == 0 {
      StartedInvariant(jobs, states[0]);
    } else {
      InvariantThroughout(jobs, states, actions, n - 1);
      var s, a := states[n - 1], actions[n - 1];
      assert MoveStep(s, a, states[n]);
      assert states[n] == MovedState(s, a.id, NextFault(jobs[a.id], s.passes[a.id]));
      MoveKeepsInvariant(jobs, states[0].world.stores, s, a.id);
    }
  }

  // ----- passes in turn settle the stores alike -----

  ghost function WritersBefore(jobs: seq<Job>, n: nat, k: ClusterKey): set<nat> {
    set i: nat | i < n && i < |jobs| && Policies.Reaches(jobs[i], k)
  }

  lemma OneJob(stores: Policies.Stores, j: Job, k: ClusterKey)
    requires Distinct(j.list) && k in stores
    ensures var r := Policies.RunJobs(stores, [j]);
            k in r && r[k] == if Policies.Reaches(j, k) then Policies.Written(j.policy, stores[k]) else stores[k]
  {
    Policies.JobEffect(stores, j);
    assert [j][1..] == [];
    assert Policies.RunJobs(stores, [j]) == Policies.Loop(stores, j.policy, j.list, j.faults).stores;
  }

  /** The store of cluster `k` after the first `n` jobs in turn. */
  ghost function InTurn(jobs: seq<Job>, n: nat, k: ClusterKey, s: Store): Store
    requires n <= |jobs|
  {
    if n == 0 then s
    else
      var now := InTurn(jobs, n - 1, k, s);
      if Policies.Reaches(jobs[n - 1], k) then Policies.Written(jobs[n - 1].policy, now) else now
  }

  lemma {:induction false} RunJobsInTurn(first: Policies.Stores, jobs: seq<Job>, n: nat, k: ClusterKey)
    requires n <= |jobs| && k in first && forall i :: 0 <= i < |jobs| ==> Distinct(jobs[i].list)
    ensures k in Policies.RunJobs(first, jobs[..n])
    ensures Policies.RunJobs(first, jobs[..n])[k] == InTurn(jobs, n, k, first[k])
  {
    if n == 0 {
      assert jobs[..0] == [];
    } else {
      RunJobsInTurn(first, jobs, n - 1, k);
      assert jobs[..n] == jobs[..n - 1] + [jobs[n - 1]];
      Policies.RunJobsConcat(first, jobs[..n - 1], [jobs[n - 1]]);
      OneJob(Policies.RunJobs(first, jobs[..n - 1]), jobs[n - 1], k);
    }
  }

  lemma JobSettles(jobs: seq<Job>, n: nat, k: ClusterKey, first: Store, now: Store, t: ObjKey)
    requires Policies.AllApart(jobs) && n < |jobs|
    requires Settled(jobs, WritersBefore(jobs, n, k), first, now, t)
    ensures Settled(jobs, WritersBefore(jobs, n + 1, k), first,
                    if Policies.Reaches(jobs[n], k) then Policies.Written(jobs[n].policy, now) else now, t)
  {
    var before := WritersBefore(jobs, n, k);
    if Policies.Reaches(jobs[n], k) {
      assert WritersBefore(jobs, n + 1, k) == before + {n};
      forall i | i in before
        ensures Target(jobs[i].policy) != Target(jobs[n].policy)
      {
        assert Policies.Apart(jobs[i], jobs[n]);
      }
      WriteSettles(jobs, before, first, now, n, t);
    } else {
      assert WritersBefore(jobs, n + 1, k) == before;
    }
  }

  lemma {:induction false} TurnsSettle(jobs: seq<Job>, n: nat, k: ClusterKey, first: Store, t: ObjKey)
    requires Policies.AllApart(jobs) && n <= |jobs|
    ensures Settled(jobs, WritersBefore(jobs, n, k), first, InTurn(jobs, n, k, first), t)
  {
    if n == 0 {
      assert WritersBefore(jobs, 0, k) == {};
    } else {
      TurnsSettle(jobs, n - 1, k, first, t);
      JobSettles(jobs, n - 1, k, first, InTurn(jobs, n - 1, k, first), t);
    }
  }

  lemma {:induction false} RunJobsKeys(stores: Policies.Stores, jobs: seq<Job>)
    requires Policies.AllApart(jobs)
    ensures Policies.RunJobs(stores, jobs).Keys == stores.Keys
    decreases |jobs|
  {
    if jobs != [] {
      Policies.JobEffect(stores, jobs[0]);
      Policies.ApartWithout(jobs, 0);
      assert jobs[..0] + jobs[1..] == jobs[1..];
      RunJobsKeys(Policies.Loop(stores, jobs[0].policy, jobs[0].list, jobs[0].faults).stores, jobs[1..]);
    }
  }

  lemma SettledIsUnique(jobs: seq<Job>, writers: set<nat>, first: Store, a: Store, b: Store)
    requires forall t :: Settled(jobs, writers, first, a, t) && Settled(jobs, writers, first, b, t)
    ensures a == b
  {
    forall t
      ensures Lookup(a, t) == Lookup(b, t)
    {
      assert Settled(jobs, writers, first, a, t) && Settled(jobs, writers, first, b, t);
    }
    forall t
      ensures (t in a <==> t in b) && (t in a ==> a[t] == b[t])
    {
      assert Lookup(a, t) == Lookup(b, t);
    }
  }

  /** If no two passes write the same object with the faults they meet, then once all have ended the workload stores are
      those of the passes carried out one after the other with these faults, in any order. */
  lemma ApartIsSerial(jobs: seq<Job>, states: seq<State>, actions: seq<Action>, order: seq<Job>)
    requires Policies.AllApart(jobs) && Interleaved(jobs, states, actions) && Meets(jobs, states, actions)
    requires states[|actions|].passes == map[]
    requires multiset(order) == multiset(jobs)
    ensures states[|actions|].world.stores == Policies.RunJobs(states[0].world.stores, order)
  {
    var first, last := states[0].world.stores, states[|actions|].world.stores;
    InvariantThroughout(jobs, states, actions, |actions|);
    RunJobsKeys(first, jobs);
    var r := Policies.RunJobs(first, jobs);
    forall k | k in first
      ensures last[k] == r[k]
    {
      assert Writers(jobs, map[], k) == WritersBefore(jobs, |jobs|, k);
      assert jobs[..|jobs|] == jobs;
      RunJobsInTurn(first, jobs, |jobs|, k);
      forall t
        ensures Settled(jobs, WritersBefore(jobs, |jobs|, k), first[k], last[k], t)
        ensures Settled(jobs, WritersBefore(jobs, |jobs|, k), first[k], r[k], t)
      {
        TurnsSettle(jobs, |jobs|, k, first[k], t);
      }
      SettledIsUnique(jobs, WritersBefore(jobs, |jobs|, k), first[k], last[k], r[k]);
    }
    assert last == r;
    Policies.ReconcilesCommute(first, jobs, order);
  }

  // ----- whatever the calls meet, there are passes that meet it -----

  /** How many calls the pass has still before it, at most. */
  function Rank(pass: Pass): int {
    if pass.Deploying? then 4 * |pass.todo| - CallNumber(pass.step) else 0
  }

  lemma OneMove(j: Job, w: World, pass: Pass, f: Fault)
    requires Along(j, pass)
    ensures var m := Advance(w, pass, f);
            m.pass.Some? ==> Along(j, m.pass.value) && Rank(m.pass.value) < Rank(pass)
  {
    if pass.todo != [] {
      assert pass.todo[1..] == j.list[|j.list| - |pass.todo[1..]|..];
    }
  }

  lemma OneStep(j: Job, s: State, a: Action, s': State, i: nat)
    requires MoveStep(s, a, s') && i in s'.passes
    ensures i in s.passes
    ensures a.id != i ==> s'.passes[i] == s.passes[i]
    ensures a.id == i && Along(j, s.passes[i]) ==>
              Along(j, s'.passes[i]) && Rank(s'.passes[i]) < Rank(s.passes[i])
  {
    if a.id == i && Along(j, s.passes[i]) {
      OneMove(j, s.world, s.passes[i], a.fault);
    }
  }

  lemma UnderwayBefore(jobs: seq<Job>, states: seq<State>, actions: seq<Action>, n: nat, i: nat)
    requires Interleaved(jobs, states, actions) && n < |actions| && i in states[n + 1].passes
    ensures actions[n].Move? && i in states[n].passes
  {
    assert MoveStep(states[n], actions[n], states[n + 1]);
  }

  lemma OneStepOf(jobs: seq<Job>, states: seq<State>, actions: seq<Action>, n: nat, i: nat)
    requires Interleaved(jobs, states, actions) && n < |actions| && actions[n].Move?
    requires i in states[n + 1].passes && i in states[n].passes && i < |jobs| && Along(jobs[i], states[n].passes[i])
    ensures Along(jobs[i], states[n + 1].passes[i])
    ensures Rank(states[n + 1].passes[i]) <= Rank(states[n].passes[i]) - if actions[n].id == i then 1 else 0
  {
    assert MoveStep(states[n], actions[n], states[n + 1]);
    OneStep(jobs[i], states[n], actions[n], states[n + 1], i);
  }

  /** Later in an interleaving a pass is further on in its list. */
  lemma {:induction false} FurtherOn(jobs: seq<Job>, states: seq<State>, actions: seq<Action>, m: nat, n: nat, i: nat)
    requires Interleaved(jobs, states, actions) && m <= n < |states| && i in states[n].passes
    ensures i < |jobs| && Along(jobs[i], states[n].passes[i])
    ensures i in states[m].passes && Rank(states[n].passes[i]) <= Rank(states[m].passes[i])
    ensures m < n && actions[m].Move? && actions[m].id == i ==> Rank(states[n].passes[i]) < Rank(states[m].passes[i])
    decreases n
  {
    if n > 0 {
      UnderwayBefore(jobs, states, actions, n - 1, i);
      FurtherOn(jobs, states, actions, if m < n then m else n - 1, n - 1, i);
      OneStepOf(jobs, states, actions, n - 1, i);
    }
  }

  /** Action number `n` is call `c` of pass `i` to cluster `k`. */
  ghost predicate IsCall(states: seq<State>, actions: seq<Action>, i: nat, k: ClusterKey, c: nat, n: nat) {
    && n < |actions| && n < |states| && actions[n].Move? && actions[n].id == i && i in states[n].passes
    && var pass := states[n].passes[i];
       pass.Deploying? && pass.todo != [] && pass.todo[0].key == k && CallNumber(pass.step) == c
  }

  lemma CalledOnce(jobs: seq<Job>, states: seq<State>, actions: seq<Action>, i: nat, k: ClusterKey, c: nat, m: nat,
                   n: nat)
    requires Interleaved(jobs, states, actions) && m <= n && i < |jobs| && Distinct(jobs[i].list)
    requires IsCall(states, actions, i, k, c, m) && IsCall(states, actions, i, k, c, n)
    ensures m == n
  {
    FurtherOn(jobs, states, actions, m, n, i);
    FurtherOn(jobs, states, actions, m, m, i);
    var list, a, b := jobs[i].list, states[m].passes[i].todo, states[n].passes[i].todo;
    assert list[|list| - |a|] == a[0] && list[|list| - |b|] == b[0];
  }

  ghost function FaultMet(states: seq<State>, actions: seq<Action>, i: nat, k: ClusterKey, c: nat): Fault {
    if n: nat :| IsCall(states, actions, i, k, c, n) then actions[n].fault else Fine
  }

  ghost function FaultsMet(states: seq<State>, actions: seq<Action>, i: nat): Policies.PassFaults {
    k => (c: nat) => FaultMet(states, actions, i, k, c)
  }

  /** The same jobs, with the faults that their passes met in the run. */
  ghost function AsMet(jobs: seq<Job>, states: seq<State>, actions: seq<Action>): (met: seq<Job>)
    ensures |met| == |jobs|
    ensures forall i :: 0 <= i < |jobs| ==> met[i] == jobs[i].(faults := FaultsMet(states, actions, i))
  {
    seq(|jobs|, i requires 0 <= i < |jobs| => jobs[i].(faults := FaultsMet(states, actions, i)))
  }

  lemma MeetsCall(jobs: seq<Job>, states: seq<State>, actions: seq<Action>, n: nat, i: nat)
    requires Interleaved(jobs, states, actions) && n < |actions| && actions[n].Move? && actions[n].id == i
    requires i in states[n].passes && states[n].passes[i].todo != []
    ensures i < |jobs|
    ensures Distinct(jobs[i].list) ==>
              actions[n].fault == NextFault(AsMet(jobs, states, actions)[i], states[n].passes[i])
  {
    FurtherOn(jobs, states, actions, n, n, i);
    if Distinct(jobs[i].list) {
      var pass := states[n].passes[i];
      var k, c := pass.todo[0].key, CallNumber(pass.step);
      assert IsCall(states, actions, i, k, c, n);
      forall m: nat | IsCall(states, actions, i, k, c, m)
        ensures m == n
      {
        if m <= n {
          CalledOnce(jobs, states, actions, i, k, c, m, n);
        } else {
          CalledOnce(jobs, states, actions, i, k, c, n, m);
        }
      }
    }
  }

  lemma RunMeetsThem(jobs: seq<Job>, states: seq<State>, actions: seq<Action>)
    requires Interleaved(jobs, states, actions) && forall i :: 0 <= i < |jobs| ==> Distinct(jobs[i].list)
    ensures Meets(AsMet(jobs, states, actions), states, actions)
  {
    forall n | 0 <= n < |actions| && MoveStep(states[n], actions[n], states[n + 1])
               && states[n].passes[actions[n].id].todo != []
      ensures actions[n].id < |jobs|
      ensures actions[n].fault ==
              NextFault(AsMet(jobs, states, actions)[actions[n].id], states[n].passes[actions[n].id])
    {
      MeetsCall(jobs, states, actions, n, actions[n].id);
    }
  }

  /** The jobs' policies have different targets, or list no common cluster. */
  ghost predicate TargetsApart(jobs: seq<Job>) {
    && (forall i :: 0 <= i < |jobs| ==> Distinct(jobs[i].list))
    && (forall i, j :: 0 <= i < j < |jobs| ==>
         Target(jobs[i].policy) != Target(jobs[j].policy) || Keys(jobs[i].list) !! Keys(jobs[j].list))
  }

  lemma ApartWhateverFails(jobs: seq<Job>, met: seq<Job>)
    requires TargetsApart(jobs) && |met| == |jobs|
    requires forall i :: 0 <= i < |jobs| ==> met[i] == jobs[i].(faults := met[i].faults)
    ensures Policies.AllApart(met)
  {
    forall i, j | 0 <= i < j < |met|
      ensures Policies.Apart(met[i], met[j])
    {
      assert Target(jobs[i].policy) != Target(jobs[j].policy) || Keys(jobs[i].list) !! Keys(jobs[j].list);
      forall k | Policies.Reaches(met[i], k) && Policies.Reaches(met[j], k)
        ensures k in Keys(jobs[i].list) && k in Keys(jobs[j].list)
      {
      }
    }
  }

  /** Passes of policies with different targets do not disturb each other: whatever order their calls come in and
      whichever calls fail or lose their reply, once all passes have ended the workload stores are those of the same
      passes, failing alike, carried out one after the other, in any order. */
  lemma InterleavingIsSerial(jobs: seq<Job>, states: seq<State>, actions: seq<Action>)
    requires TargetsApart(jobs) && Interleaved(jobs, states, actions)
    requires states[|actions|].passes == map[]
    ensures var met := AsMet(jobs, states, actions);
            && Meets(met, states, actions)
            && forall order :: multiset(order) == multiset(met) ==>
                 states[|actions|].world.stores == Policies.RunJobs(states[0].world.stores, order)
  {
    var met := AsMet(jobs, states, actions);
    RunMeetsThem(jobs, states, actions);
    ApartWhateverFails(jobs, met);
    forall order | multiset(order) == multiset(met)
      ensures states[|actions|].world.stores == Policies.RunJobs(states[0].world.stores, order)
    {
      ApartIsSerial(met, states, actions, order);
    }
  }
}
