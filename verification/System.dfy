/** Both controllers at work together, call by call, with the environment in between. */
module System {
  import opened Api
  import opened Remote
  import opened Install
  import opened Admission
  import Addon = AddonPass
  import Policies = PolicyPass

  type World = Addon.World

  datatype DeployStep = AtGate | AtGet | AtWrite(fetched: Option<Obj>) | AtProbe

  /** A reconcile pass in flight: its remaining list, read at some earlier time, and where it stands with the
      first cluster of that list. */
  datatype Pass =
    | Installing(bundle: Bundle, todo: seq<Cluster>, pc: nat)
    | Deploying(policy: PolicySpec, todo: seq<Cluster>, step: DeployStep)
    | Deleting(policy: PolicySpec, todo: seq<Cluster>, connected: bool)

  /** The world after one call of a pass, and the pass if it goes on. */
  datatype Moved = Moved(world: World, pass: Option<Pass>)

  function SetStore(w: World, k: ClusterKey, s: Store): World {
    w.(stores := w.stores[k := s])
  }

  /** `plan` is the plan of bundle `b`. */
  function AdvanceInstall(w: World, b: Bundle, plan: seq<Call>, todo: seq<Cluster>, pc: nat, f: Fault): Moved {
    if todo == [] || (pc == 0 && Addon.Blocked(todo[0])) || todo[0].key !in w.stores then
      Moved(w, None)
    else if pc < |plan| then
      var e := Exec(plan[pc], f, w.stores[todo[0].key]);
      Moved(SetStore(w, todo[0].key, e.store), if e.ok then Some(Installing(b, todo, pc + 1)) else None)
    else
      var e := Addon.AnnotateOn(w, todo[0].key, f);
      Moved(e.world, if e.end == Addon.Finished then Some(Installing(b, todo[1..], 0)) else None)
  }

  /** Create fails if the object is there, update if it is no longer the one that was read. */
  function WriteOn(p: PolicySpec, s: Store, fetched: Option<Obj>, f: Fault): Outcome {
    var t := Target(p);
    var possible := if fetched.Some? then t in s && s[t] == fetched.value else t !in s;
    if possible && f != Refused then Outcome(Policies.Written(p, s), f == Fine) else Outcome(s, false)
  }

  function AdvanceDeploy(w: World, p: PolicySpec, todo: seq<Cluster>, step: DeployStep, f: Fault): Moved {
    if todo == [] then
      Moved(w, None)
    else
      var k := todo[0].key;
      var next := Some(Deploying(p, todo[1..], AtGate));
      if k !in w.stores then Moved(w, next)
      else match step
        case AtGate => Moved(w, if Policies.Gate(todo[0]) && f == Fine then Some(Deploying(p, todo, AtGet)) else next)
        case AtGet =>
          var found := if Target(p) in w.stores[k] then Some(w.stores[k][Target(p)]) else None;
          Moved(w, if f == Fine then Some(Deploying(p, todo, AtWrite(found))) else next)
        case AtWrite(fetched) =>
          var r := WriteOn(p, w.stores[k], fetched, f);
          Moved(SetStore(w, k, r.store), if r.ok then Some(Deploying(p, todo, AtProbe)) else next)
        case AtProbe => Moved(w, next)
  }

  function AdvanceDelete(w: World, p: PolicySpec, todo: seq<Cluster>, connected: bool, f: Fault): Moved {
    if todo == [] then
      Moved(w, None)
    else if todo[0].key !in w.stores || (!connected && f != Fine) then
      Moved(w, Some(Deleting(p, todo[1..], false)))
    else if !connected then
      Moved(w, Some(Deleting(p, todo, true)))
    else
      var s := w.stores[todo[0].key];
      Moved(SetStore(w, todo[0].key, if f == Refused then s else s - {Target(p)}), Some(Deleting(p, todo[1..], false)))
  }

  function Advance(w: World, pass: Pass, f: Fault): Moved {
    match pass
    case Installing(b, todo, pc) => AdvanceInstall(w, b, Plan(b), todo, pc, f)
    case Deploying(p, todo, step) => AdvanceDeploy(w, p, todo, step, f)
    case Deleting(p, todo, connected) => AdvanceDelete(w, p, todo, connected, f)
  }

  // ----- left alone, a pass does call by call what the pass functions say -----

  function DriveInstall(w: World, b: Bundle, plan: seq<Call>, todo: seq<Cluster>, pc: nat, f: Addon.PassFaults): World
    requires pc <= |plan|
    decreases |todo|, |plan| - pc
  {
    if todo == [] then w
    else
      var m := AdvanceInstall(w, b, plan, todo, pc, f(todo[0].key)(pc));
      if m.pass.None? then m.world
      else DriveInstall(m.world, b, plan, m.pass.value.todo, m.pass.value.pc, f)
  }

  /** How a pass goes on once the calls of the plan are over for the first cluster. */
  function AfterPlan(w: World, b: Bundle, plan: seq<Call>, todo: seq<Cluster>, ok: bool, f: Addon.PassFaults): World
    requires todo != []
  {
    if !ok then w
    else
      var e := Addon.AnnotateOn(w, todo[0].key, f(todo[0].key)(|plan|));
      if e.end == Addon.Finished then DriveInstall(e.world, b, plan, todo[1..], 0, f) else e.world
  }

  lemma DriveInstallStep(w: World, b: Bundle, plan: seq<Call>, todo: seq<Cluster>, pc: nat, f: Addon.PassFaults)
    requires todo != [] && pc <= |plan| && todo[0].key in w.stores && (pc == 0 ==> !Addon.Blocked(todo[0]))
    ensures var k := todo[0].key;
            DriveInstall(w, b, plan, todo, pc, f) ==
            if pc == |plan| then AfterPlan(w, b, plan, todo, true, f)
            else
              var e := Exec(plan[pc], f(k)(pc), w.stores[k]);
              if e.ok then DriveInstall(SetStore(w, k, e.store), b, plan, todo, pc + 1, f) else SetStore(w, k, e.store)
  {
  }

  lemma {:induction false} DrivePlan(w: World, b: Bundle, plan: seq<Call>, todo: seq<Cluster>, pc: nat,
                                     f: Addon.PassFaults)
    requires todo != [] && pc <= |plan| && todo[0].key in w.stores && (pc == 0 ==> !Addon.Blocked(todo[0]))
    ensures var k := todo[0].key;
            var r := Run(plan[pc..], f(k), pc, w.stores[k]);
            DriveInstall(w, b, plan, todo, pc, f) == AfterPlan(SetStore(w, k, r.store), b, plan, todo, r.ok, f)
    decreases |plan| - pc
  {
    var k := todo[0].key;
    DriveInstallStep(w, b, plan, todo, pc, f);
    if pc < |plan| {
      assert plan[pc..] == [plan[pc]] + plan[pc + 1..];
      RunCons(plan[pc], plan[pc + 1..], f(k), pc, w.stores[k]);
      var e := Exec(plan[pc], f(k)(pc), w.stores[k]);
      if e.ok {
        var w1 := SetStore(w, k, e.store);
        DrivePlan(w1, b, plan, todo, pc + 1, f);
        var r := Run(plan[pc + 1..], f(k), pc + 1, e.store);
        assert SetStore(w1, k, r.store) == SetStore(w, k, r.store);
      }
    } else {
      assert plan[pc..] == [];
      assert SetStore(w, k, w.stores[k]) == w;
    }
  }

  lemma {:induction false} InstallPassIsItsCalls(w: World, b: Bundle, todo: seq<Cluster>, f: Addon.PassFaults)
    ensures DriveInstall(w, b, Plan(b), todo, 0, f) == Addon.Loop(w, b, todo, f).world
    decreases |todo|
  {
    if todo != [] && !Addon.Blocked(todo[0]) && todo[0].key in w.stores {
      var e := Addon.InstallOn(w, b, todo[0].key, f(todo[0].key));
      DrivePlan(w, b, Plan(b), todo, 0, f);
      assert Plan(b)[0..] == Plan(b);
      if e.end != Addon.Failed {
        InstallPassIsItsCalls(e.world, b, todo[1..], f);
      }
    }
  }

  function CallNumber(step: DeployStep): nat {
    match step
    case AtGate => 0
    case AtGet => 1
    case AtWrite(_) => 2
    case AtProbe => 3
  }

  function DriveDeploy(w: World, p: PolicySpec, todo: seq<Cluster>, step: DeployStep, f: Policies.PassFaults): World
    decreases |todo|, 4 - CallNumber(step)
  {
    if todo == [] then w
    else
      var m := AdvanceDeploy(w, p, todo, step, f(todo[0].key)(CallNumber(step)));
      DriveDeploy(m.world, p, m.pass.value.todo, m.pass.value.step, f)
  }

  lemma DriveOneDeploy(w: World, p: PolicySpec, todo: seq<Cluster>, f: Policies.PassFaults)
    requires todo != [] && todo[0].key in w.stores
    ensures var k := todo[0].key;
            DriveDeploy(w, p, todo, AtGate, f) ==
            DriveDeploy(SetStore(w, k, Policies.VisitOn(p, todo[0], w.stores[k], f(k)).store), p, todo[1..], AtGate, f)
  {
    var k := todo[0].key;
    var s := w.stores[k];
    assert SetStore(w, k, s) == w;
    if Policies.Gate(todo[0]) && f(k)(0) == Fine {
      assert DriveDeploy(w, p, todo, AtGate, f) == DriveDeploy(w, p, todo, AtGet, f);
      if f(k)(1) == Fine {
        var found := if Target(p) in s then Some(s[Target(p)]) else None;
        assert DriveDeploy(w, p, todo, AtGet, f) == DriveDeploy(w, p, todo, AtWrite(found), f);
        var r := WriteOn(p, s, found, f(k)(2));
        var w1 := SetStore(w, k, r.store);
        if r.ok {
          assert DriveDeploy(w, p, todo, AtWrite(found), f) == DriveDeploy(w1, p, todo, AtProbe, f);
        }
      }
    }
  }

  lemma {:induction false} DeployPassIsItsCalls(w: World, p: PolicySpec, todo: seq<Cluster>, f: Policies.PassFaults)
    ensures DriveDeploy(w, p, todo, AtGate, f) == w.(stores := Policies.Loop(w.stores, p, todo, f).stores)
    decreases |todo|
  {
    if todo != [] {
      var k := todo[0].key;
      if k in w.stores {
        DriveOneDeploy(w, p, todo, f);
        DeployPassIsItsCalls(SetStore(w, k, Policies.VisitOn(p, todo[0], w.stores[k], f(k)).store), p, todo[1..], f);
      } else {
        DeployPassIsItsCalls(w, p, todo[1..], f);
      }
    }
  }

  function DriveDelete(w: World, p: PolicySpec, todo: seq<Cluster>, connected: bool, f: Policies.PassFaults): World
    decreases |todo|, if connected then 0 else 1
  {
    if todo == [] then w
    else
      var m := AdvanceDelete(w, p, todo, connected, f(todo[0].key)(if connected then 1 else 0));
      DriveDelete(m.world, p, m.pass.value.todo, m.pass.value.connected, f)
  }

  lemma {:induction false} DeletePassIsItsCalls(w: World, p: PolicySpec, todo: seq<Cluster>, f: Policies.PassFaults)
    ensures DriveDelete(w, p, todo, false, f) == w.(stores := Policies.DeleteLoop(w.stores, p, todo, f))
    decreases |todo|
  {
    if todo != [] {
      var k := todo[0].key;
      if k in w.stores {
        var s := Policies.DeleteOn(p, w.stores[k], f(k));
        assert SetStore(w, k, w.stores[k]) == w;
        if f(k)(0) == Fine {
          assert DriveDelete(w, p, todo, false, f) == DriveDelete(w, p, todo, true, f);
        }
        assert DriveDelete(w, p, todo, false, f) == DriveDelete(SetStore(w, k, s), p, todo[1..], false, f);
        DeletePassIsItsCalls(SetStore(w, k, s), p, todo[1..], f);
      } else {
        DeletePassIsItsCalls(w, p, todo[1..], f);
      }
    }
  }

  // ----- where the two controllers disagree -----

  predicate OneSignal(c: Cluster) {
    c.controlPlaneReady != c.readyCondition
  }

  /** Whatever is listed with it and whatever fails, a policy pass leaves a cluster with exactly one readiness signal as
      it is, and does not report Ready. */
  lemma OneSignalGetsNoPolicy(stores: Policies.Stores, p: PolicySpec, list: seq<Cluster>, g: Policies.PassFaults,
                              c: Cluster)
    requires Distinct(list) && c in list && OneSignal(c)
    ensures var r := Policies.Loop(stores, p, list, g);
            && !r.ready && !Policies.StatusAfter(Policies.Status(true, Nil, Nil), list, r).ready
            && (c.key in stores ==> c.key in r.stores && r.stores[c.key] == stores[c.key])
            && forall e :: e in r.deployed ==> e.cluster != c.key
  {
    Policies.PassIsPointwise(stores, p, list, g);
    assert !Policies.VisitReady(stores, p, c, g);
    forall e | e in Policies.Loop(stores, p, list, g).deployed
      ensures e.cluster != c.key
    {
      if e.cluster == c.key {
        Policies.EntryCount(stores, p, list, g, c, e);
      }
    }
  }

  /** The addon controller is content with one readiness signal, the policy controller wants both. So a cluster with
      exactly one, wherever it stands in the front part of an addon's list, is installed and annotated; and then no
      policy pass that lists it, with whatever other clusters, writes to it or reports Ready. */
  lemma OneSignalGap(w: World, b: Bundle, list: seq<Cluster>, f: Addon.PassFaults, i: nat,
                     p: PolicySpec, matching: seq<Cluster>, g: Policies.PassFaults)
    requires Addon.HealthyPass(f) && Installable(b) && Distinct(list) && Addon.Known(w, list)
    requires i < |list| && OneSignal(list[i])
    requires forall j :: 0 <= j <= i ==>
      (list[j].controlPlaneReady || list[j].readyCondition) && !HasAnnotation(list[j], INSTALLED)
    requires OneSignal(w.clusters[list[i].key]) && w.clusters[list[i].key].key == list[i].key
    ensures var k, w' := list[i].key, Addon.Loop(w, b, list, f).world;
            && k in w'.clusters && HasAnnotation(w'.clusters[k], INSTALLED)
            && k in w'.stores && Installed(b, w'.stores[k])
            && (Distinct(matching) && w'.clusters[k] in matching ==>
                 var r := Policies.Loop(w'.stores, p, matching, g);
                 !r.ready && k in r.stores && r.stores[k] == w'.stores[k])
  {
    var k, w' := list[i].key, Addon.Loop(w, b, list, f).world;
    InFrontIsInstalled(w, b, list, f, i);
    if Distinct(matching) && w'.clusters[k] in matching {
      OneSignalGetsNoPolicy(w'.stores, p, matching, g, w'.clusters[k]);
    }
  }

  /** A cluster with no blocked one up to it in the list is installed and annotated by a failure-free pass. */
  lemma InFrontIsInstalled(w: World, b: Bundle, list: seq<Cluster>, f: Addon.PassFaults, i: nat)
    requires Addon.HealthyPass(f) && Installable(b) && Distinct(list) && Addon.Known(w, list) && i < |list|
    requires forall j :: 0 <= j <= i ==>
      (list[j].controlPlaneReady || list[j].readyCondition) && !HasAnnotation(list[j], INSTALLED)
    ensures var k, w' := list[i].key, Addon.Loop(w, b, list, f).world;
            && k in w.clusters && k in w'.clusters && w'.clusters[k] == Annotated(w.clusters[k])
            && k in w'.stores && Installed(b, w'.stores[k])
  {
    var h: Faults := (i: nat) => Fine;
    var n := Addon.Frontier(list);
    assert i < n;
    Addon.ExactEffect(w, b, list, f, h, n);
    var k := list[i].key;
    assert list[i] in list && k in Keys(list[..n]) by {
      assert list[..n][i] == list[i];
    }
    InstallSucceedsIff(b, h, w.stores[k]);
    InstallCompletes(b, h, w.stores[k]);
  }

  // ----- the transition system -----

  /** `seen` holds every version a cluster ever had, which is what a stale cache may show; `origin` remembers the
      bundle whose installation led to a cluster's annotation. */
  datatype State = State(world: World, seen: set<Cluster>, origin: map<ClusterKey, Bundle>, passes: map<nat, Pass>)

  datatype Action =
    | Begin(id: nat, pass: Pass)
    | Move(id: nat, fault: Fault)
    | Crash(id: nat)
    | EditCluster(cluster: Cluster)                // readiness, labels, other annotations, or a new cluster
    | ChangeStore(key: ClusterKey, store: Store)

  predicate AtStart(pass: Pass) {
    match pass
    case Installing(_, _, pc) => pc == 0
    case Deploying(_, _, step) => step == AtGate
    case Deleting(_, _, connected) => !connected
  }

  function MovedState(s: State, id: nat, f: Fault): State
    requires id in s.passes
  {
    var pass := s.passes[id];
    var m := Advance(s.world, pass, f);
    State(
      m.world,
      s.seen + m.world.clusters.Values,
      if pass.Installing? && m.world.clusters != s.world.clusters && pass.todo != []
        then s.origin[pass.todo[0].key := pass.bundle] else s.origin,
      if m.pass.Some? then s.passes[id := m.pass.value] else s.passes - {id})
  }

  /** The environment may do anything except set or remove the install annotation and take away installed
      objects or their tolerations. Policy objects it may create, edit and delete at will. */
  ghost predicate Step(s: State, a: Action, s': State) {
    match a
    case Begin(id, pass) =>
      && id !in s.passes && AtStart(pass)
      && (forall c :: c in pass.todo ==> c in s.seen)
      && s' == s.(passes := s.passes[id := pass])
    case Move(id, f) =>
      id in s.passes && s' == MovedState(s, id, f)
    case Crash(id) =>
      s' == s.(passes := s.passes - {id})
    case EditCluster(c) =>
      && (HasAnnotation(c, INSTALLED) <==>
          c.key in s.world.clusters && HasAnnotation(s.world.clusters[c.key], INSTALLED))
      && s' == s.(world := s.world.(clusters := s.world.clusters[c.key := c]), seen := s.seen + {c})
    case ChangeStore(k, t) =>
      && (k in s.world.stores ==> Keeps(s.world.stores[k], t))
      && s' == s.(world := SetStore(s.world, k, t))
  }

  ghost predicate Init(s: State) {
    && s.passes == map[] && s.origin == map[]
    && s.seen == s.world.clusters.Values
    && forall k :: k in s.world.clusters ==>
         s.world.clusters[k].key == k && !HasAnnotation(s.world.clusters[k], INSTALLED)
  }

  // ----- the invariant -----

  ghost predicate InstalledOn(s: State, k: ClusterKey) {
    k in s.origin && k in s.world.stores && Installed(s.origin[k], s.world.stores[k])
  }

  predicate AnnotatedOn(s: State, k: ClusterKey) {
    k in s.world.clusters && HasAnnotation(s.world.clusters[k], INSTALLED)
  }

  ghost predicate PassInv(s: State, pass: Pass) {
    && (forall c :: c in pass.todo ==> c in s.seen)
    && match pass
       case Installing(b, todo, pc) =>
         && pc <= |Plan(b)|
         && (pc > 0 ==> todo != [] && todo[0].key in s.world.stores
                        && AllHold(Plan(b)[..pc], s.world.stores[todo[0].key]))
       case Deploying(_, todo, step) => step != AtGate ==> todo != [] && Policies.Gate(todo[0])
       case Deleting(_, _, _) => true
  }

  ghost predicate Inv(s: State) {
    && (forall k :: k in s.world.clusters ==> s.world.clusters[k].key == k && s.world.clusters[k] in s.seen)
    && (forall c :: c in s.seen && HasAnnotation(c, INSTALLED) ==> AnnotatedOn(s, c.key))
    && (forall k :: AnnotatedOn(s, k) ==> InstalledOn(s, k))
    && (forall id :: id in s.passes ==> PassInv(s, s.passes[id]))
  }

  /** What every step leaves in place for the passes that do not move. */
  ghost predicate Later(s: State, s': State) {
    && s.seen <= s'.seen
    && (forall k :: k in s.world.stores ==> k in s'.world.stores && Keeps(s.world.stores[k], s'.world.stores[k]))
    && (forall k :: AnnotatedOn(s, k) ==> AnnotatedOn(s', k))
  }

  lemma MarksStay(cs: seq<Call>, s: Store, t: Store)
    requires AllHold(cs, s) && Keeps(s, t) && forall c :: c in cs && c.Tolerate? ==> !IsPolicy(c.key)
    ensures AllHold(cs, t)
  {
  }

  lemma PassInvStays(s: State, s': State, pass: Pass)
    requires PassInv(s, pass) && Later(s, s')
    ensures PassInv(s', pass)
  {
    if pass.Installing? && pass.pc > 0 {
      var k := pass.todo[0].key;
      PlanShape(pass.bundle);
      MarksStay(Plan(pass.bundle)[..pass.pc], s.world.stores[k], s'.world.stores[k]);
    }
  }

  lemma InstalledStays(s: State, s': State, k: ClusterKey)
    requires InstalledOn(s, k) && Later(s, s') && k in s'.origin && s'.origin[k] == s.origin[k]
    ensures InstalledOn(s', k)
  {
    PlanShape(s.origin[k]);
    InstalledIff(s.origin[k], s.world.stores[k]);
    InstalledIff(s.origin[k], s'.world.stores[k]);
    MarksStay(Plan(s.origin[k]), s.world.stores[k], s'.world.stores[k]);
  }

  lemma ExecKeeps(c: Call, f: Fault, s: Store)
    ensures Keeps(s, Exec(c, f, s).store)
  {
  }

  lemma InstallAdvanceKeeps(w: World, b: Bundle, todo: seq<Cluster>, pc: nat, f: Fault)
    requires todo != []
    ensures var w' := AdvanceInstall(w, b, Plan(b), todo, pc, f).world;
            && w'.stores.Keys == w.stores.Keys
            && (forall k :: k in w.stores ==> Keeps(w.stores[k], w'.stores[k]))
            && (w'.clusters == w.clusters || (pc >= |Plan(b)| && AnnotatesOnly(w, todo[0].key, w')))
  {
    if todo[0].key in w.stores && pc < |Plan(b)| {
      ExecKeeps(Plan(b)[pc], f, w.stores[todo[0].key]);
    }
  }

  predicate AnnotatesOnly(w: World, k: ClusterKey, w': World) {
    && k in w.clusters && k in w.stores
    && w' == w.(clusters := w.clusters[k := Annotated(w.clusters[k])])
  }

  /** One call of a pass keeps every store's marks, and only an annotation step touches the clusters. */
  lemma AdvanceKeeps(w: World, pass: Pass, f: Fault)
    ensures var w' := Advance(w, pass, f).world;
            && w'.stores.Keys == w.stores.Keys
            && (forall k :: k in w.stores ==> Keeps(w.stores[k], w'.stores[k]))
            && (w'.clusters == w.clusters ||
                (&& pass.Installing? && pass.todo != [] && pass.pc >= |Plan(pass.bundle)|
                 && AnnotatesOnly(w, pass.todo[0].key, w')))
  {
    if pass.Installing? && pass.todo != [] {
      InstallAdvanceKeeps(w, pass.bundle, pass.todo, pass.pc, f);
    }
  }

  lemma MoveIsLater(s: State, id: nat, f: Fault)
    requires id in s.passes
    ensures Later(s, MovedState(s, id, f))
  {
    AdvanceKeeps(s.world, s.passes[id], f);
  }

  /** A call that succeeds adds its mark to those of the calls before it. */
  lemma OneMoreMark(b: Bundle, pc: nat, f: Fault, s: Store)
    requires pc < |Plan(b)| && AllHold(Plan(b)[..pc], s) && Exec(Plan(b)[pc], f, s).ok
    ensures AllHold(Plan(b)[..pc + 1], Exec(Plan(b)[pc], f, s).store)
  {
    var c := Plan(b)[pc];
    var t := Exec(c, f, s).store;
    PlanShape(b);
    ExecKeeps(c, f, s);
    MarksStay(Plan(b)[..pc], s, t);
    assert c in Plan(b);
    assert Holds(c, t);
    assert Plan(b)[..pc + 1] == Plan(b)[..pc] + [c];
  }

  lemma MovedInstall(s: State, id: nat, f: Fault, b: Bundle, todo: seq<Cluster>, pc: nat)
    requires id in s.passes && s.passes[id] == Installing(b, todo, pc) && PassInv(s, Installing(b, todo, pc))
    requires Advance(s.world, s.passes[id], f).pass.Some?
    ensures PassInv(MovedState(s, id, f), Advance(s.world, s.passes[id], f).pass.value)
  {
    var m := AdvanceInstall(s.world, b, Plan(b), todo, pc, f);
    assert Advance(s.world, s.passes[id], f) == m;
    var s' := MovedState(s, id, f);
    if pc < |Plan(b)| {
      var k := todo[0].key;
      assert Plan(b)[..0] == [];
      OneMoreMark(b, pc, f, s.world.stores[k]);
      assert m.pass == Some(Installing(b, todo, pc + 1));
      assert s'.world.stores[k] == Exec(Plan(b)[pc], f, s.world.stores[k]).store;
    } else {
      assert m.pass == Some(Installing(b, todo[1..], 0));
    }
  }

  lemma AdvanceOther(w: World, pass: Pass, f: Fault)
    requires !pass.Installing? && Advance(w, pass, f).pass.Some?
    ensures var next := Advance(w, pass, f).pass.value;
            && !next.Installing?
            && (forall c :: c in next.todo ==> c in pass.todo)
            && (next.Deploying? && next.step != AtGate ==>
                 && pass.Deploying? && next.todo == pass.todo && pass.todo != []
                 && (pass.step != AtGate || Policies.Gate(pass.todo[0])))
  {
  }

  /** The moving pass itself: executed calls of the plan have left their marks; a deployment under way has
      passed its gates. */
  lemma MovedPassInv(s: State, id: nat, f: Fault)
    requires Inv(s) && id in s.passes && Advance(s.world, s.passes[id], f).pass.Some?
    ensures PassInv(MovedState(s, id, f), Advance(s.world, s.passes[id], f).pass.value)
  {
    var pass := s.passes[id];
    assert PassInv(s, pass);
    match pass
    case Installing(b, todo, pc) => MovedInstall(s, id, f, b, todo, pc);
    case _ => AdvanceOther(s.world, pass, f);
  }

  lemma MoveKeepsInstalled(s: State, id: nat, f: Fault, k: ClusterKey)
    requires Inv(s) && id in s.passes && AnnotatedOn(MovedState(s, id, f), k)
    ensures InstalledOn(MovedState(s, id, f), k)
  {
    var pass := s.passes[id];
    var s' := MovedState(s, id, f);
    AdvanceKeeps(s.world, pass, f);
    MoveIsLater(s, id, f);
    if s'.world.clusters != s.world.clusters && k == pass.todo[0].key {
      assert PassInv(s, pass);
      assert Plan(pass.bundle)[..pass.pc] == Plan(pass.bundle);
      InstalledIff(pass.bundle, s.world.stores[k]);
      assert s'.world.stores[k] == s.world.stores[k];
    } else {
      assert AnnotatedOn(s, k);
      InstalledStays(s, s', k);
    }
  }

  lemma MoveKeepsSeen(s: State, id: nat, f: Fault)
    requires Inv(s) && id in s.passes
    ensures var s' := MovedState(s, id, f);
            && (forall k :: k in s'.world.clusters ==> s'.world.clusters[k].key == k && s'.world.clusters[k] in s'.seen)
            && (forall c :: c in s'.seen && HasAnnotation(c, INSTALLED) ==> AnnotatedOn(s', c.key))
  {
    AdvanceKeeps(s.world, s.passes[id], f);
    MoveIsLater(s, id, f);
  }

  lemma MoveKeepsInv(s: State, id: nat, f: Fault)
    requires Inv(s) && id in s.passes
    ensures Inv(MovedState(s, id, f))
  {
    var s' := MovedState(s, id, f);
    MoveIsLater(s, id, f);
    MoveKeepsSeen(s, id, f);
    forall k | AnnotatedOn(s', k)
      ensures InstalledOn(s', k)
    {
      MoveKeepsInstalled(s, id, f, k);
    }
    forall other | other in s'.passes
      ensures PassInv(s', s'.passes[other])
    {
      if other == id {
        MovedPassInv(s, id, f);
      } else {
        PassInvStays(s, s', s.passes[other]);
      }
    }
  }

  /** A step that sets no annotation and keeps the stores' marks keeps what is installed and under way. */
  lemma QuietStepKeeps(s: State, s': State)
    requires Inv(s) && Later(s, s') && s'.origin == s.origin
    requires forall k :: AnnotatedOn(s', k) ==> AnnotatedOn(s, k)
    ensures forall k :: AnnotatedOn(s', k) ==> InstalledOn(s', k)
    ensures forall id :: id in s.passes ==> PassInv(s', s.passes[id])
  {
    forall k | AnnotatedOn(s', k)
      ensures InstalledOn(s', k)
    {
      InstalledStays(s, s', k);
    }
    forall id | id in s.passes
      ensures PassInv(s', s.passes[id])
    {
      PassInvStays(s, s', s.passes[id]);
    }
  }

  /** A step of the environment, or the start or crash of a pass, sets no annotation and keeps the marks. */
  lemma OtherStepIsQuiet(s: State, a: Action, s': State)
    requires Inv(s) && Step(s, a, s') && !a.Move?
    ensures Later(s, s') && s'.origin == s.origin
    ensures forall k :: AnnotatedOn(s', k) ==> AnnotatedOn(s, k)
    ensures forall k :: k in s'.world.clusters ==> s'.world.clusters[k].key == k && s'.world.clusters[k] in s'.seen
    ensures forall c :: c in s'.seen && HasAnnotation(c, INSTALLED) ==> AnnotatedOn(s', c.key)
  {
  }

  lemma PassesAfter(s: State, a: Action, s': State, id: nat)
    requires Step(s, a, s') && !a.Move? && id in s'.passes
    ensures (id in s.passes && s'.passes[id] == s.passes[id]) || (a.Begin? && s'.passes[id] == a.pass)
  {
  }

  lemma StartInv(s: State, pass: Pass)
    requires AtStart(pass) && forall c :: c in pass.todo ==> c in s.seen
    ensures PassInv(s, pass)
  {
  }

  lemma StepKeepsInv(s: State, a: Action, s': State)
    requires Inv(s) && Step(s, a, s')
    ensures Inv(s') && Later(s, s')
  {
    if a.Move? {
      MoveIsLater(s, a.id, a.fault);
      MoveKeepsInv(s, a.id, a.fault);
    } else {
      OtherStepIsQuiet(s, a, s');
      QuietStepKeeps(s, s');
      forall id | id in s'.passes
        ensures PassInv(s', s'.passes[id])
      {
        PassesAfter(s, a, s', id);
        if a.Begin? && s'.passes[id] == a.pass {
          StartInv(s', a.pass);
        }
      }
    }
  }

  // ----- runs -----

  ghost predicate IsRun(states: seq<State>, actions: seq<Action>) {
    && |states| == |actions| + 1
    && Init(states[0])
    && forall i :: 0 <= i < |actions| ==> Step(states[i], actions[i], states[i + 1])
  }

  lemma {:induction false} InvThroughout(states: seq<State>, actions: seq<Action>, i: nat)
    requires IsRun(states, actions) && i < |states|
    ensures Inv(states[i])
  {
    if i > 0 {
      InvThroughout(states, actions, i - 1);
      StepKeepsInv(states[i - 1], actions[i - 1], states[i]);
    }
  }

  lemma {:induction false} AnnotationIsForEver(states: seq<State>, actions: seq<Action>, i: nat, j: nat, k: ClusterKey)
    requires IsRun(states, actions) && i <= j < |states| && AnnotatedOn(states[i], k)
    ensures AnnotatedOn(states[j], k)
    decreases j - i
  {
    if i < j {
      InvThroughout(states, actions, i);
      StepKeepsInv(states[i], actions[i], states[i + 1]);
      AnnotationIsForEver(states, actions, i + 1, j, k);
    }
  }

  /** The action is the create or update call of a policy pass on cluster `k`. */
  predicate WritesPolicy(s: State, a: Action, k: ClusterKey) {
    && a.Move? && a.id in s.passes
    && s.passes[a.id].Deploying? && s.passes[a.id].step.AtWrite?
    && s.passes[a.id].todo != [] && s.passes[a.id].todo[0].key == k
  }

  /** Along every run, under every interleaving of any number of passes, with any call failing or losing its
      reply, passes crashing anywhere and cluster lists arbitrarily stale: every annotated cluster has
      completed every mandatory install stage, and at every write of a policy object the cluster written to is
      annotated and fully installed already, and stays so to the end of the run. */
  lemma Safety(states: seq<State>, actions: seq<Action>)
    requires IsRun(states, actions)
    ensures forall i, k :: 0 <= i < |states| && AnnotatedOn(states[i], k) ==> InstalledOn(states[i], k)
    ensures forall i, j, k :: 0 <= i < |actions| && i <= j < |states| && WritesPolicy(states[i], actions[i], k) ==>
              AnnotatedOn(states[j], k) && InstalledOn(states[j], k)
  {
    forall i, k | 0 <= i < |states| && AnnotatedOn(states[i], k)
      ensures InstalledOn(states[i], k)
    {
      InvThroughout(states, actions, i);
    }
    forall i, j, k | 0 <= i < |actions| && i <= j < |states| && WritesPolicy(states[i], actions[i], k)
      ensures AnnotatedOn(states[j], k) && InstalledOn(states[j], k)
    {
      InvThroughout(states, actions, i);
      var pass := states[i].passes[actions[i].id];
      assert PassInv(states[i], pass);
      assert pass.todo[0] in states[i].seen;
      AnnotationIsForEver(states, actions, i, j, k);
    }
  }

  /** Only such writes put policy objects into stores on the controllers' behalf: any step of a pass that adds or
      changes a policy object, other than by the install pipeline, is one. */
  lemma OnlyWritesWrite(s: State, id: nat, f: Fault, k: ClusterKey, t: ObjKey)
    requires id in s.passes && !s.passes[id].Installing?
    requires k in s.world.stores && t in MovedState(s, id, f).world.stores[k]
    requires t !in s.world.stores[k] || s.world.stores[k][t] != MovedState(s, id, f).world.stores[k][t]
    ensures WritesPolicy(s, Move(id, f), k) && t == Target(s.passes[id].policy)
  {
  }

  // ----- no update is lost -----

  /** The action is one of pass `id`: a call, its start or its crash. */
  predicate Concerns(a: Action, id: nat) {
    (a.Begin? || a.Move? || a.Crash?) && a.id == id
  }

  lemma {:induction false} PassWaits(states: seq<State>, actions: seq<Action>, i: nat, j: nat, id: nat)
    requires IsRun(states, actions) && i <= j < |states| && id in states[i].passes
    requires forall n :: i <= n < j ==> !Concerns(actions[n], id)
    ensures id in states[j].passes && states[j].passes[id] == states[i].passes[id]
    decreases j - i
  {
    if i < j {
      assert Step(states[i], actions[i], states[i + 1]);
      PassWaits(states, actions, i + 1, j, id);
    }
  }

  function ObjectOn(s: State, k: ClusterKey, t: ObjKey): Option<Obj> {
    if k in s.world.stores && t in s.world.stores[k] then Some(s.world.stores[k][t]) else None
  }

  /** Optimistic concurrency: along every run, if a policy pass reads its target on a cluster and its next call, however
      much later, changes that object, then the object is at that moment exactly what was read, or still missing if it
      was; only its spec is replaced. */
  lemma NoLostUpdate(states: seq<State>, actions: seq<Action>, i: nat, j: nat, id: nat)
    requires IsRun(states, actions) && i < j < |actions|
    requires actions[i].Move? && actions[i].id == id && actions[j].Move? && actions[j].id == id
    requires forall n :: i < n < j ==> !Concerns(actions[n], id)
    requires id in states[i].passes
    requires states[i].passes[id].Deploying? && states[i].passes[id].step.AtGet? && states[i].passes[id].todo != []
    requires actions[i].fault == Fine && states[i].passes[id].todo[0].key in states[i].world.stores
    ensures var p, k := states[i].passes[id].policy, states[i].passes[id].todo[0].key;
            var t := Target(p);
            var before, after := ObjectOn(states[j], k, t), ObjectOn(states[j + 1], k, t);
            after != before ==>
              && before == ObjectOn(states[i], k, t)
              && after == Some(if before.Some? then before.value.(content := Policy(BuildSpec(p)))
                               else Obj(Policy(BuildSpec(p)), [], false))
  {
    assert Step(states[i], actions[i], states[i + 1]);
    assert Step(states[j], actions[j], states[j + 1]);
    PassWaits(states, actions, i + 1, j, id);
  }
}
