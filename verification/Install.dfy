/** The install pipeline that the addon controller runs on one cluster. */
module Install {
  import opened Api
  import opened Remote
  import opened Manifest

  datatype Bundle = Bundle(crds: seq<seq<Doc>>, controller: seq<Doc>, defaults: seq<Doc>)

  /** Where the manifests come from. The CRDs are released by application version; the charts are rendered
      for the version in the addon's spec. */
  datatype Catalog = Catalog(
    crds: string -> seq<seq<Doc>>,
    controller: string -> seq<Doc>,
    defaults: string -> seq<Doc>
  )

  const KUBEWARDEN_VERSION := "v1.18.0"

  function BundleFor(catalog: Catalog, version: string): Bundle {
    Bundle(
      catalog.crds(if version != "" then version else KUBEWARDEN_VERSION),
      catalog.controller(version),
      catalog.defaults(version))
  }

  const NAMESPACE_KEY := ObjKey(NamespaceKind, "", "kubewarden")
  const NAMESPACE_OBJ := Obj(Document("kubewarden"), [], false)
  const CONTROLLER_KEY := ObjKey(Deployment, "kubewarden", "caapkw-kubewarden-controller")
  const SERVER_KEY := ObjKey(PolicyServer, "", "default")  // a PolicyServer is not namespaced
  const AUDIT_KEY := ObjKey(CronJob, "kubewarden", "audit-scanner")

  const TOLERATIONS: seq<Call> :=
    [Tolerate(CONTROLLER_KEY, false), Tolerate(SERVER_KEY, false), Tolerate(AUDIT_KEY, true)]

  /** Everything before the toleration patches. */
  function Creations(b: Bundle): seq<Call> {
    [Fetch, Create(NAMESPACE_KEY, NAMESPACE_OBJ), Fetch] + FileCalls(b.crds)
    + [Fetch] + Calls(b.controller) + [Fetch] + Calls(b.defaults)
  }

  /** The calls of one installation, in order, from connecting to the last patch. */
  function Plan(b: Bundle): seq<Call> {
    Creations(b) + TOLERATIONS
  }

  lemma CreationsOnly(b: Bundle)
    ensures forall c :: c in Creations(b) ==> !c.Tolerate?
  {
    FileCallsOnlyCreate(b.crds);
    CallsAt(b.controller);
    CallsAt(b.defaults);
  }

  lemma PlanShape(b: Bundle)
    ensures OptionalOnlyLast(Plan(b))
    ensures forall c :: c in Plan(b) && c.Tolerate? ==> !IsPolicy(c.key)
  {
    CreationsOnly(b);
    var n := |Creations(b)|;
    forall i | 0 <= i < |Plan(b)| - 1
      ensures !(Plan(b)[i].Tolerate? && Plan(b)[i].optional)
    {
      if i < n {
        assert Plan(b)[i] in Creations(b);
      }
    }
  }

  // ----- what an installation is for, in terms of the manifests -----

  /** Every document of the file that is read is an object, and its object is there. Policy objects are excepted
      because their owners may delete them again. */
  predicate Applied(docs: seq<Doc>, s: Store) {
    forall i :: 0 <= i < Readable(docs) ==> docs[i].Object? && (IsPolicy(docs[i].key) || docs[i].key in s)
  }

  predicate ToleratedIn(s: Store, k: ObjKey) {
    k in s && s[k].tolerations == TOLERATED
  }

  /** Every mandatory stage of the installation has been completed on this store: the namespace, every file of the
      CRDs, both charts, and the two patches. */
  ghost predicate Installed(b: Bundle, s: Store) {
    && NAMESPACE_KEY in s
    && (forall a :: 0 <= a < |b.crds| ==> Applied(b.crds[a], s))
    && Applied(b.controller, s)
    && Applied(b.defaults, s)
    && ToleratedIn(s, CONTROLLER_KEY)
    && ToleratedIn(s, SERVER_KEY)
  }

  lemma CallsHold(docs: seq<Doc>, s: Store)
    ensures AllHold(Calls(docs), s) <==> Applied(docs, s)
  {
    CallsAt(docs);
    if AllHold(Calls(docs), s) {
      forall i | 0 <= i < Readable(docs)
        ensures docs[i].Object? && (IsPolicy(docs[i].key) || docs[i].key in s)
      {
        assert Calls(docs)[i] in Calls(docs);
      }
    }
  }

  lemma AllHoldConcat(a: seq<Call>, b: seq<Call>, s: Store)
    ensures AllHold(a + b, s) <==> AllHold(a, s) && AllHold(b, s)
  {
    assert forall c :: c in a + b <==> c in a || c in b;
  }

  lemma {:induction false} FileCallsHold(files: seq<seq<Doc>>, s: Store)
    ensures AllHold(FileCalls(files), s) <==> forall a :: 0 <= a < |files| ==> Applied(files[a], s)
  {
    if files != [] {
      CallsHold(files[0], s);
      FileCallsHold(files[1..], s);
      AllHoldConcat(Calls(files[0]), FileCalls(files[1..]), s);
      assert files == [files[0]] + files[1..];
    }
  }

  lemma TolerationsHold(s: Store)
    ensures AllHold(TOLERATIONS, s) <==> ToleratedIn(s, CONTROLLER_KEY) && ToleratedIn(s, SERVER_KEY)
  {
    assert TOLERATIONS[0] in TOLERATIONS && TOLERATIONS[1] in TOLERATIONS;
  }

  lemma CreationsHold(b: Bundle, s: Store)
    ensures AllHold(Creations(b), s) <==>
      && NAMESPACE_KEY in s && AllHold(FileCalls(b.crds), s)
      && AllHold(Calls(b.controller), s) && AllHold(Calls(b.defaults), s)
  {
    var start := [Fetch, Create(NAMESPACE_KEY, NAMESPACE_OBJ), Fetch];
    var crds, controller, defaults := FileCalls(b.crds), Calls(b.controller), Calls(b.defaults);
    assert Creations(b) == start + (crds + ([Fetch] + (controller + ([Fetch] + defaults))));
    AllHoldConcat(start, crds + ([Fetch] + (controller + ([Fetch] + defaults))), s);
    AllHoldConcat(crds, [Fetch] + (controller + ([Fetch] + defaults)), s);
    AllHoldConcat([Fetch], controller + ([Fetch] + defaults), s);
    AllHoldConcat(controller, [Fetch] + defaults, s);
    AllHoldConcat([Fetch], defaults, s);
    assert start[1] in start;
  }

  /** The mandatory stages are complete exactly if every call of the plan has left its mark. */
  lemma InstalledIff(b: Bundle, s: Store)
    ensures Installed(b, s) <==> AllHold(Plan(b), s)
  {
    AllHoldConcat(Creations(b), TOLERATIONS, s);
    TolerationsHold(s);
    CreationsHold(b, s);
    FileCallsHold(b.crds, s);
    CallsHold(b.controller, s);
    CallsHold(b.defaults, s);
  }

  lemma InstallCompletes(b: Bundle, f: Faults, s: Store)
    requires Run(Plan(b), f, 0, s).ok
    ensures Installed(b, Run(Plan(b), f, 0, s).store)
  {
    PlanShape(b);
    SuccessLeavesMarks(Plan(b), f, 0, s);
    InstalledIff(b, Run(Plan(b), f, 0, s).store);
  }

  // ----- which bundles can be installed at all -----

  /** The files of the bundle in the order they are applied in. */
  function Files(b: Bundle): seq<seq<Doc>> {
    b.crds + [b.controller, b.defaults]
  }

  /** No document that is read is anything but an object. */
  ghost predicate Unbroken(b: Bundle) {
    forall a: nat, i: nat :: Reads(Files(b), a, i) ==> Files(b)[a][i].Object?
  }

  /** Some document that is read is for key `k`. */
  ghost predicate Brings(b: Bundle, k: ObjKey) {
    exists a: nat, i: nat :: Carries(Files(b), k, a, i)
  }

  /** No document is broken, and the manifests bring the two objects that must be patched. */
  ghost predicate Installable(b: Bundle) {
    Unbroken(b) && Brings(b, CONTROLLER_KEY) && Brings(b, SERVER_KEY)
  }

  lemma TwoMoreFiles(files: seq<seq<Doc>>, x: seq<Doc>, y: seq<Doc>)
    ensures FileCalls(files + [x, y]) == FileCalls(files) + (Calls(x) + Calls(y))
    ensures Documents(files + [x, y]) == Documents(files) + Readable(x) + Readable(y)
  {
    FileCallsConcat(files, [x, y]);
    assert [x, y][1..] == [y] && [y][1..] == [];
    assert FileCalls([y]) == Calls(y) + FileCalls([]);
    assert Documents([y]) == Readable(y) + Documents([]);
  }

  /** Apart from connecting, fetching and the namespace, the creations are the documents of the files. */
  lemma CreationsAre(b: Bundle)
    ensures forall c :: c in Creations(b) <==>
      c == Fetch || c == Create(NAMESPACE_KEY, NAMESPACE_OBJ) || c in FileCalls(Files(b))
  {
    TwoMoreFiles(b.crds, b.controller, b.defaults);
  }

  lemma CreationsCount(b: Bundle)
    ensures |Creations(b)| == 5 + Documents(Files(b))
  {
    TwoMoreFiles(b.crds, b.controller, b.defaults);
    OneCallEach(b.crds);
  }

  lemma CreationsBreak(b: Bundle)
    ensures Invalid in Creations(b) <==> !Unbroken(b)
  {
    CreationsAre(b);
    OneCallEach(Files(b));
    if a: nat, i: nat :| Reads(Files(b), a, i) && !Files(b)[a][i].Object? {
      assert CallFor(Files(b)[a][i]) in FileCalls(Files(b));
    }
  }

  lemma CreationsBring(b: Bundle, k: ObjKey)
    requires k != NAMESPACE_KEY
    ensures (exists o :: Create(k, o) in Creations(b)) <==> Brings(b, k)
  {
    CreationsAre(b);
    OneCallEach(Files(b));
    if o :| Create(k, o) in Creations(b) {
      var a: nat, i: nat :| Reads(Files(b), a, i) && Create(k, o) == CallFor(Files(b)[a][i]);
      assert Carries(Files(b), k, a, i);
    }
    if a: nat, i: nat :| Carries(Files(b), k, a, i) {
      assert CallFor(Files(b)[a][i]) in FileCalls(Files(b));
      assert Create(k, Files(b)[a][i].obj) in Creations(b);
    }
  }

  lemma {:induction false} CreationsSucceed(cs: seq<Call>, f: Faults, at: nat, s: Store)
    requires Healthy(f) && forall c :: c in cs ==> !c.Tolerate?
    ensures Run(cs, f, at, s).ok <==> Invalid !in cs
    ensures Run(cs, f, at, s).ok ==>
      forall k :: k in Run(cs, f, at, s).store <==> k in s || exists o :: Create(k, o) in cs
  {
    if cs != [] {
      var e := Exec(cs[0], f(at), s);
      assert cs == [cs[0]] + cs[1..];
      CreationsSucceed(cs[1..], f, at + 1, e.store);
      if Run(cs, f, at, s).ok {
        forall k
          ensures k in Run(cs, f, at, s).store <==> k in s || exists o :: Create(k, o) in cs
        {
          if o :| Create(k, o) in cs {
            assert Create(k, o) == cs[0] || Create(k, o) in cs[1..];
          }
          if o :| Create(k, o) in cs[1..] {
            assert Create(k, o) in cs;
          }
        }
      }
    }
  }

  /** What the toleration patches do after the creations have given store `t`. */
  lemma PatchesRun(f: Faults, at: nat, t: Store)
    requires Healthy(f)
    ensures Run(TOLERATIONS, f, at, t).ok <==> CONTROLLER_KEY in t && SERVER_KEY in t
    ensures Run(TOLERATIONS, f, at, t).ok ==>
      Run(TOLERATIONS, f, at, t).store == Tolerated(Tolerated(Tolerated(t, CONTROLLER_KEY), SERVER_KEY), AUDIT_KEY)
  {
    assert TOLERATIONS[1..] == [Tolerate(SERVER_KEY, false), Tolerate(AUDIT_KEY, true)];
    assert TOLERATIONS[1..][1..] == [Tolerate(AUDIT_KEY, true)];
    assert TOLERATIONS[1..][1..][1..] == [];
    var a := Exec(TOLERATIONS[0], Fine, t);
    var b := Exec(TOLERATIONS[1], Fine, a.store);
    assert Run(TOLERATIONS, f, at, t) == if a.ok then Run(TOLERATIONS[1..], f, at + 1, a.store) else a;
    assert Run(TOLERATIONS[1..], f, at + 1, a.store) ==
      if b.ok then Run(TOLERATIONS[1..][1..], f, at + 2, b.store) else b;
    var c := Exec(TOLERATIONS[2], Fine, b.store);
    assert Run(TOLERATIONS[1..][1..], f, at + 2, b.store) == if c.ok then Run([], f, at + 3, c.store) else c;
  }

  lemma PipelineSucceedsIff(cs: seq<Call>, f: Faults, s: Store)
    requires Healthy(f) && forall c :: c in cs ==> !c.Tolerate?
    ensures Run(cs + TOLERATIONS, f, 0, s).ok <==>
      && Invalid !in cs
      && (CONTROLLER_KEY in s || exists o :: Create(CONTROLLER_KEY, o) in cs)
      && (SERVER_KEY in s || exists o :: Create(SERVER_KEY, o) in cs)
  {
    RunConcat(cs, TOLERATIONS, f, 0, s);
    CreationsSucceed(cs, f, 0, s);
    var r := Run(cs, f, 0, s);
    if r.ok {
      PatchesRun(f, |cs|, r.store);
    }
  }

  lemma CleanInstallSucceedsIff(b: Bundle, f: Faults, s: Store)
    requires Healthy(f)
    ensures Run(Plan(b), f, 0, s).ok <==>
      && Unbroken(b)
      && (CONTROLLER_KEY in s || Brings(b, CONTROLLER_KEY))
      && (SERVER_KEY in s || Brings(b, SERVER_KEY))
  {
    CreationsOnly(b);
    CreationsBreak(b);
    CreationsBring(b, CONTROLLER_KEY);
    CreationsBring(b, SERVER_KEY);
    PipelineSucceedsIff(Creations(b), f, s);
  }

  /** How many calls an installation has: one for connecting, the namespace, three fetches, one for each document that
      is read, and three patches. */
  function CallCount(b: Bundle): nat {
    8 + Documents(Files(b))
  }

  lemma PlanCount(b: Bundle)
    ensures |Plan(b)| == CallCount(b)
  {
    CreationsCount(b);
  }

  /** The plan without its last call, the optional patch. */
  function Mandatory(b: Bundle): seq<Call> {
    Creations(b) + TOLERATIONS[..2]
  }

  const LAST: seq<Call> := [Tolerate(AUDIT_KEY, true)]

  lemma PlanEnds(b: Bundle, f: Faults, s: Store)
    ensures forall c :: c in Mandatory(b) ==> !(c.Tolerate? && c.optional)
    ensures |Mandatory(b)| == CallCount(b) - 1
    ensures var r := Run(Mandatory(b), f, 0, s);
            Run(Plan(b), f, 0, s) == if r.ok then Exec(LAST[0], f(|Mandatory(b)|), r.store) else r
  {
    CreationsOnly(b);
    CreationsCount(b);
    assert Plan(b) == Mandatory(b) + LAST;
    assert forall c :: c in Mandatory(b) ==> c in Creations(b) || c in TOLERATIONS[..2];
    RunConcat(Mandatory(b), LAST, f, 0, s);
    var r := Run(Mandatory(b), f, 0, s);
    assert LAST[1..] == [];
  }

  /** An installation succeeds on a store exactly when none of its calls fails except perhaps the last, no document is
      broken, and each object to be patched is there already or comes with the manifests. */
  lemma InstallSucceedsIff(b: Bundle, f: Faults, s: Store)
    ensures Run(Plan(b), f, 0, s).ok <==>
      && FineBetween(f, 0, CallCount(b) - 1)
      && Unbroken(b)
      && (CONTROLLER_KEY in s || Brings(b, CONTROLLER_KEY))
      && (SERVER_KEY in s || Brings(b, SERVER_KEY))
  {
    var g: Faults := (i: nat) => Fine;
    PlanEnds(b, f, s);
    PlanEnds(b, g, s);
    SucceedsIff(Mandatory(b), f, 0, g, 0, s);
    CleanInstallSucceedsIff(b, g, s);
  }

  /** A bundle can be installed from every starting store exactly when it is installable. */
  lemma InstallableIff(b: Bundle, f: Faults)
    requires Healthy(f)
    ensures Installable(b) <==> forall s: Store :: Run(Plan(b), f, 0, s).ok
  {
    if Installable(b) {
      forall s: Store
        ensures Run(Plan(b), f, 0, s).ok
      {
        CleanInstallSucceedsIff(b, f, s);
      }
    } else {
      UninstallableFails(b, f);
    }
  }

  lemma UninstallableFails(b: Bundle, f: Faults)
    requires Healthy(f) && !Installable(b)
    ensures exists s: Store :: !Run(Plan(b), f, 0, s).ok
  {
    var empty: Store := map[];
    CleanInstallSucceedsIff(b, f, empty);
    assert !Run(Plan(b), f, 0, empty).ok;
  }

  // ----- what an installation leaves behind, document by document -----

  function WithoutFetch(cs: seq<Call>): seq<Call> {
    if cs == [] then [] else (if cs[0].Fetch? then [] else [cs[0]]) + WithoutFetch(cs[1..])
  }

  lemma {:induction false} WithoutFetchConcat(a: seq<Call>, b: seq<Call>)
    ensures WithoutFetch(a + b) == WithoutFetch(a) + WithoutFetch(b)
  {
    if a == [] {
      assert a + b == b;
    } else {
      assert (a + b)[1..] == a[1..] + b;
      WithoutFetchConcat(a[1..], b);
      Regroup(if a[0].Fetch? then [] else [a[0]], WithoutFetch(a[1..]), WithoutFetch(b));
    }
  }

  lemma {:induction false} NothingToDrop(cs: seq<Call>)
    requires forall c :: c in cs ==> !c.Fetch?
    ensures WithoutFetch(cs) == cs
  {
    if cs != [] {
      NothingToDrop(cs[1..]);
      assert cs == [cs[0]] + cs[1..];
    }
  }

  /** Fetches have no effect on the store except that a run ends at one that fails: the other calls alone, with other
      faults, do the same. */
  lemma {:induction false} FetchesDropped(cs: seq<Call>, f: Faults, at: nat, bt: nat, s: Store) returns (g: Faults)
    ensures Run(WithoutFetch(cs), g, bt, s).store == Run(cs, f, at, s).store
    ensures Run(cs, f, at, s).ok ==> Run(WithoutFetch(cs), g, bt, s).ok
    decreases |cs|
  {
    g := (n: nat) => Refused;
    if cs != [] {
      var rest := cs[1..];
      var e := Exec(cs[0], f(at), s);
      if cs[0].Fetch? {
        assert WithoutFetch(cs) == WithoutFetch(rest);
        if e.ok {
          g := FetchesDropped(rest, f, at + 1, bt, s);
        } else {
          RefusedAtOnce(WithoutFetch(rest), g, bt, s);
        }
      } else {
        var h := FetchesDropped(rest, f, at + 1, bt + 1, e.store);
        g := (n: nat) => if n == bt then f(at) else h(n);
        RunCons(cs[0], WithoutFetch(rest), g, bt, s);
        SameFaultsAhead(WithoutFetch(rest), g, h, bt + 1, e.store);
      }
    }
  }

  lemma {:induction false} RefusedAtOnce(cs: seq<Call>, g: Faults, bt: nat, s: Store)
    requires forall n: nat :: g(n) == Refused
    ensures Run(cs, g, bt, s).store == s
  {
    if cs != [] {
      RefusedAtOnce(cs[1..], g, bt + 1, s);
    }
  }

  lemma {:induction false} SameFaultsAhead(cs: seq<Call>, f: Faults, g: Faults, at: nat, s: Store)
    requires forall n: nat :: at <= n ==> f(n) == g(n)
    ensures Run(cs, f, at, s) == Run(cs, g, at, s)
  {
    if cs != [] {
      SameFaultsAhead(cs[1..], f, g, at + 1, Exec(cs[0], f(at), s).store);
    }
  }

  /** The files of an installation: the namespace stands like a file of its own in front of them. */
  function AllFiles(b: Bundle): seq<seq<Doc>> {
    [[Object(NAMESPACE_KEY, NAMESPACE_OBJ)]] + Files(b)
  }

  lemma OneFetch(a: seq<Call>, b: seq<Call>)
    requires forall c :: c in b ==> !c.Fetch?
    ensures WithoutFetch(a + [Fetch] + b) == WithoutFetch(a) + b
  {
    var front := a + [Fetch];
    WithoutFetchConcat(front, b);
    WithoutFetchConcat(a, [Fetch]);
    assert WithoutFetch([Fetch]) == [] + WithoutFetch([]);
    assert WithoutFetch(front) == WithoutFetch(a);
    NothingToDrop(b);
  }

  lemma NamespaceFile()
    ensures Calls([Object(NAMESPACE_KEY, NAMESPACE_OBJ)]) == [Create(NAMESPACE_KEY, NAMESPACE_OBJ)]
    ensures WithoutFetch([Fetch, Create(NAMESPACE_KEY, NAMESPACE_OBJ)]) == [Create(NAMESPACE_KEY, NAMESPACE_OBJ)]
  {
    var ns := Create(NAMESPACE_KEY, NAMESPACE_OBJ);
    assert [Object(NAMESPACE_KEY, NAMESPACE_OBJ)][1..] == [];
    assert [Fetch, ns] == [] + [Fetch] + [ns];
    OneFetch([], [ns]);
  }

  lemma AllFileCalls(b: Bundle)
    ensures FileCalls(AllFiles(b)) ==
            [Create(NAMESPACE_KEY, NAMESPACE_OBJ)] + FileCalls(b.crds) + Calls(b.controller) + Calls(b.defaults)
  {
    var ns := [Create(NAMESPACE_KEY, NAMESPACE_OBJ)];
    NamespaceFile();
    TwoMoreFiles(b.crds, b.controller, b.defaults);
    assert AllFiles(b)[1..] == Files(b);
    Regroup(ns, FileCalls(b.crds), Calls(b.controller) + Calls(b.defaults));
    Regroup(ns + FileCalls(b.crds), Calls(b.controller), Calls(b.defaults));
  }

  lemma CreationsDropped(b: Bundle)
    ensures WithoutFetch(Creations(b)) == FileCalls(AllFiles(b))
  {
    var start := [Fetch, Create(NAMESPACE_KEY, NAMESPACE_OBJ)];
    CallsFetchNothing(b);
    NamespaceFile();
    AllFileCalls(b);
    var first := start + [Fetch] + FileCalls(b.crds);
    var second := first + [Fetch] + Calls(b.controller);
    OneFetch(start, FileCalls(b.crds));
    OneFetch(first, Calls(b.controller));
    OneFetch(second, Calls(b.defaults));
    assert start + [Fetch] == [Fetch, Create(NAMESPACE_KEY, NAMESPACE_OBJ), Fetch];
  }

  lemma CallsFetchNothing(b: Bundle)
    ensures forall c :: c in FileCalls(b.crds) || c in Calls(b.controller) || c in Calls(b.defaults) ==> !c.Fetch?
  {
    FileCallsOnlyCreate(b.crds);
    CallsAt(b.controller);
    CallsAt(b.defaults);
  }

  /** At most tolerations of the three patched objects differ. */
  ghost predicate SameButTolerations(s: Store, t: Store) {
    && s.Keys == t.Keys
    && forall k :: k in s ==>
         && t[k] == s[k].(tolerations := t[k].tolerations)
         && (t[k] != s[k] ==> k in {CONTROLLER_KEY, SERVER_KEY, AUDIT_KEY})
  }

  lemma PatchesInTurn(f: Faults, at: nat, t: Store)
    ensures Run(TOLERATIONS, f, at, t) ==
            var a := Exec(Tolerate(CONTROLLER_KEY, false), f(at), t);
            var b := Exec(Tolerate(SERVER_KEY, false), f(at + 1), a.store);
            if !a.ok then a else if !b.ok then b else Exec(Tolerate(AUDIT_KEY, true), f(at + 2), b.store)
  {
    var first, second, third := Tolerate(CONTROLLER_KEY, false), Tolerate(SERVER_KEY, false), Tolerate(AUDIT_KEY, true);
    assert TOLERATIONS == [first] + ([second] + ([third] + []));
    var a := Exec(first, f(at), t);
    var b := Exec(second, f(at + 1), a.store);
    RunCons(first, [second] + ([third] + []), f, at, t);
    RunCons(second, [third] + [], f, at + 1, a.store);
    RunCons(third, [], f, at + 2, b.store);
  }

  /** The controller deployment and the PolicyServer have been tolerated, and the audit scanner if `audit`. */
  ghost predicate Patched(s: Store, t: Store, audit: bool) {
    forall k :: k in s ==>
      && k in t
      && t[k].tolerations ==
         if k == CONTROLLER_KEY || k == SERVER_KEY || (k == AUDIT_KEY && audit) then TOLERATED else s[k].tolerations
  }

  lemma PatchesKeep(f: Faults, at: nat, t: Store)
    ensures SameButTolerations(t, Run(TOLERATIONS, f, at, t).store)
  {
    PatchesInTurn(f, at, t);
  }

  lemma PatchesTolerate(f: Faults, at: nat, t: Store)
    requires Run(TOLERATIONS, f, at, t).ok
    ensures Patched(t, Run(TOLERATIONS, f, at, t).store, f(at + 2) != Refused)
  {
    PatchesInTurn(f, at, t);
    var t1 := Tolerated(t, CONTROLLER_KEY);
    var t2 := Tolerated(t1, SERVER_KEY);
    var r := Run(TOLERATIONS, f, at, t).store;
    assert r == if f(at + 2) == Refused then t2 else Tolerated(t2, AUDIT_KEY);
  }

  /** What the creations leave behind, whatever fails. */
  lemma CreationsPlace(b: Bundle, f: Faults, s: Store) returns (m: nat, n: nat)
    ensures (m < |AllFiles(b)| && n <= Readable(AllFiles(b)[m])) || (m == |AllFiles(b)| && n == 0)
    ensures AllPlaced(AllFiles(b), m, n, s, Run(Creations(b), f, 0, s).store)
    ensures Run(Creations(b), f, 0, s).ok ==> m == |AllFiles(b)|
  {
    CreationsDropped(b);
    var g := FetchesDropped(Creations(b), f, 0, 0, s);
    m, n := FilesLaw(AllFiles(b), g, 0, s, false);
  }

  lemma PatchesDo(f: Faults, at: nat, t: Store)
    ensures SameButTolerations(t, Run(TOLERATIONS, f, at, t).store)
    ensures Run(TOLERATIONS, f, at, t).ok ==> Patched(t, Run(TOLERATIONS, f, at, t).store, f(at + 2) != Refused)
  {
    PatchesKeep(f, at, t);
    if Run(TOLERATIONS, f, at, t).ok {
      PatchesTolerate(f, at, t);
    }
  }

  lemma SameIsSame(s: Store)
    ensures SameButTolerations(s, s)
  {
  }

  lemma PlanRuns(b: Bundle, f: Faults, s: Store)
    ensures var r := Run(Creations(b), f, 0, s);
            Run(Plan(b), f, 0, s) == if r.ok then Run(TOLERATIONS, f, 5 + Documents(Files(b)), r.store) else r
  {
    RunConcat(Creations(b), TOLERATIONS, f, 0, s);
    CreationsCount(b);
  }

  lemma PatchesOrNothing(u: Store, ok: bool, f: Faults, at: nat, e: Outcome)
    requires e == if ok then Run(TOLERATIONS, f, at, u) else Outcome(u, false)
    ensures SameButTolerations(u, e.store)
    ensures e.ok ==> Patched(u, e.store, f(at + 2) != Refused)
  {
    if ok {
      PatchesDo(f, at, u);
    } else {
      SameIsSame(u);
    }
  }

  lemma PatchesFollow(b: Bundle, f: Faults, s: Store, u: Store)
    requires u == Run(Creations(b), f, 0, s).store
    ensures !Run(Creations(b), f, 0, s).ok ==> Run(Plan(b), f, 0, s) == Outcome(u, false)
    ensures SameButTolerations(u, Run(Plan(b), f, 0, s).store)
    ensures Run(Plan(b), f, 0, s).ok ==>
              Patched(u, Run(Plan(b), f, 0, s).store, f(CallCount(b) - 1) != Refused)
  {
    PlanRuns(b, f, s);
    PatchesOrNothing(u, Run(Creations(b), f, 0, s).ok, f, 5 + Documents(Files(b)), Run(Plan(b), f, 0, s));
  }

  /** The law of an installation: whatever fails, the store is the old one with the first `m` files and `n` documents of
      the next applied, of namespace, CRDs, controller chart and default chart in this order; if no error is
      reported with all of them applied, and besides with the three tolerations, the last only if its call was not
      refused. */
  lemma InstallLaw(b: Bundle, f: Faults, s: Store) returns (m: nat, n: nat, u: Store)
    ensures (m < |AllFiles(b)| && n <= Readable(AllFiles(b)[m])) || (m == |AllFiles(b)| && n == 0)
    ensures AllPlaced(AllFiles(b), m, n, s, u)
    ensures m < |AllFiles(b)| ==> Run(Plan(b), f, 0, s) == Outcome(u, false)
    ensures SameButTolerations(u, Run(Plan(b), f, 0, s).store)
    ensures Run(Plan(b), f, 0, s).ok ==>
      && m == |AllFiles(b)|
      && Patched(u, Run(Plan(b), f, 0, s).store, f(CallCount(b) - 1) != Refused)
  {
    u := Run(Creations(b), f, 0, s).store;
    m, n := CreationsPlace(b, f, s);
    PatchesFollow(b, f, s, u);
  }

  lemma AddedByMandatory(b: Bundle, f: Faults, s: Store, k: ObjKey) returns (n: nat)
    requires k in Run(Plan(b), f, 0, s).store && k !in s
    ensures n < |Creations(b)| && Creations(b)[n].Create? && Creations(b)[n].key == k && FineBetween(f, 0, n)
  {
    PlanEnds(b, f, s);
    n := AddedBy(Mandatory(b), f, 0, s, k);
    assert n < |Creations(b)|;
  }

  /** Call number `n` is one of those that create the objects of the CRDs, or of one of the two charts. */
  lemma WhichStage(b: Bundle, n: nat)
    requires n < |Creations(b)| && Creations(b)[n].Create? && n != 1
    ensures var c, x := Creations(b)[n], 3 + Documents(b.crds);
            var y := x + 1 + Readable(b.controller);
            || (3 <= n < x && c in FileCalls(b.crds))
            || (x < n < y && c in Calls(b.controller))
            || (y < n && c in Calls(b.defaults))
  {
    OneCallEach(b.crds);
    var x := 3 + Documents(b.crds);
    var y := x + 1 + Readable(b.controller);
    var c := Creations(b)[n];
    assert Creations(b)[0] == Fetch && Creations(b)[2] == Fetch && Creations(b)[x] == Fetch && Creations(b)[y] == Fetch;
    assert 3 <= n < x ==> c == FileCalls(b.crds)[n - 3];
    assert x < n < y ==> c == Calls(b.controller)[n - x - 1];
    assert y < n ==> c == Calls(b.defaults)[n - y - 1];
  }

  /** A document of the file that is read is for key `k`. */
  predicate Mentions(docs: seq<Doc>, k: ObjKey) {
    exists i :: 0 <= i < Readable(docs) && docs[i].Object? && docs[i].key == k
  }

  lemma CallMentions(docs: seq<Doc>, c: Call)
    requires c.Create? && c in Calls(docs)
    ensures Mentions(docs, c.key)
  {
    CallsAt(docs);
    var i :| 0 <= i < |Calls(docs)| && Calls(docs)[i] == c;
    assert docs[i].Object?;
  }

  lemma FileCallMentions(files: seq<seq<Doc>>, c: Call)
    requires c.Create? && c in FileCalls(files)
    ensures exists a :: 0 <= a < |files| && Mentions(files[a], c.key)
  {
    OneCallEach(files);
    var a: nat, i: nat :| Reads(files, a, i) && c == CallFor(files[a][i]);
    assert files[a][i].Object?;
  }

  /** No object comes into the store unless its cluster could be reached and its manifest fetched, whatever else fails:
      the objects of the CRDs only if their download went through, and those of a chart only if it was rendered. */
  lemma NothingUnfetched(b: Bundle, f: Faults, s: Store, k: ObjKey)
    requires k in Run(Plan(b), f, 0, s).store && k !in s
    ensures f(0) == Fine
    ensures k != NAMESPACE_KEY ==>
      var chart := 3 + Documents(b.crds);
      && f(2) == Fine
      && (|| (exists a :: 0 <= a < |b.crds| && Mentions(b.crds[a], k))
          || (f(chart) == Fine && Mentions(b.controller, k))
          || (f(chart) == Fine && f(chart + 1 + Readable(b.controller)) == Fine && Mentions(b.defaults, k)))
  {
    var n := AddedByMandatory(b, f, s, k);
    assert Creations(b)[0] == Fetch && Creations(b)[2] == Fetch;
    if n != 1 {
      WhichStage(b, n);
      var c := Creations(b)[n];
      if c in FileCalls(b.crds) {
        FileCallMentions(b.crds, c);
      } else if c in Calls(b.controller) {
        CallMentions(b.controller, c);
      } else {
        CallMentions(b.defaults, c);
      }
    }
  }

  // ----- crash and resume -----

  /** The store after a row of installations on one cluster, each with its own faults. */
  function Attempts(b: Bundle, tries: seq<Faults>, s: Store): Store {
    if tries == [] then s else Attempts(b, tries[1..], Run(Plan(b), tries[0], 0, s).store)
  }

  /** Any number of installations broken off anywhere, then one without failures, leave exactly the store (and
      the verdict) of a single failure-free installation on the original store. */
  lemma {:induction false} CrashResume(b: Bundle, tries: seq<Faults>, g: Faults, s: Store)
    requires Healthy(g)
    ensures Run(Plan(b), g, 0, Attempts(b, tries, s)) == Run(Plan(b), g, 0, s)
  {
    if tries != [] {
      CrashResume(b, tries[1..], g, Run(Plan(b), tries[0], 0, s).store);
      PlanShape(b);
      FaultyRunIsAbsorbed(Plan(b), tries[0], 0, g, 0, s);
    }
  }

  ghost predicate SameButAudit(s: Store, t: Store) {
    && s.Keys == t.Keys
    && forall k :: k in s ==> t[k] == s[k] || (k == AUDIT_KEY && t[k] == s[k].(tolerations := t[k].tolerations))
  }

  /** The one thing a success may hide: an installation that reports success has left the store of a
      failure-free one, except that the audit scanner may lack its toleration. */
  lemma SuccessHidesOnlyAudit(b: Bundle, f: Faults, g: Faults, s: Store)
    requires Healthy(g) && Run(Plan(b), f, 0, s).ok
    ensures Run(Plan(b), g, 0, s).ok
    ensures SameButAudit(Run(Plan(b), f, 0, s).store, Run(Plan(b), g, 0, s).store)
  {
    PlanEnds(b, f, s);
    PlanEnds(b, g, s);
    SucceedsIff(Mandatory(b), f, 0, g, 0, s);
  }
}
