/** Calls to a workload cluster, each of which the environment may make fail. */
module Remote {
  import opened Api

  /** What the environment does to one call: let it through, refuse it, or carry it out
      and lose the reply, so that the caller sees an error although the effect is there. */
  datatype Fault = Fine | Refused | Lost

  /** The faults of one client, by the number of the call. */
  type Faults = nat -> Fault

  ghost predicate Healthy(f: Faults) {
    forall n: nat :: f(n) == Fine
  }

  datatype Call =
    | Fetch                                // download, render or connect: no effect on the store
    | Invalid                              // a document that cannot be decoded
    | Create(key: ObjKey, obj: Obj)        // AlreadyExists counts as success
    | Tolerate(key: ObjKey, optional: bool)

  datatype Outcome = Outcome(store: Store, ok: bool)

  function Created(s: Store, k: ObjKey, o: Obj): Store {
    if k in s then s else s[k := o]
  }

  function Tolerated(s: Store, k: ObjKey): Store {
    if k in s then s[k := s[k].(tolerations := TOLERATED)] else s
  }

  function Exec(c: Call, f: Fault, s: Store): Outcome {
    match c
    case Fetch => Outcome(s, f == Fine)
    case Invalid => Outcome(s, false)
    case Create(k, o) => Outcome(if f == Refused then s else Created(s, k, o), f == Fine)
    case Tolerate(k, optional) =>
      Outcome(if f == Refused then s else Tolerated(s, k), optional || (f == Fine && k in s))
  }

  /** The calls in order, up to the first that fails; the first is call number `at`. */
  function Run(cs: seq<Call>, f: Faults, at: nat, s: Store): Outcome {
    if cs == [] then
      Outcome(s, true)
    else
      var e := Exec(cs[0], f(at), s);
      if e.ok then Run(cs[1..], f, at + 1, e.store) else e
  }

  lemma RunCons(c: Call, rest: seq<Call>, f: Faults, at: nat, s: Store)
    ensures Run([c] + rest, f, at, s) ==
            var e := Exec(c, f(at), s); if e.ok then Run(rest, f, at + 1, e.store) else e
  {
    assert ([c] + rest)[1..] == rest;
  }

  lemma {:induction false} RunConcat(a: seq<Call>, b: seq<Call>, f: Faults, at: nat, s: Store)
    ensures Run(a + b, f, at, s) ==
            var r := Run(a, f, at, s); if r.ok then Run(b, f, at + |a|, r.store) else r
  {
    if a == [] {
      assert a + b == b;
    } else {
      assert (a + b)[1..] == a[1..] + b;
      var e := Exec(a[0], f(at), s);
      if e.ok {
        RunConcat(a[1..], b, f, at + 1, e.store);
      }
    }
  }

  /** Without faults the outcome depends on the calls and the store alone. */
  lemma {:induction false} HealthyRunsAgree(cs: seq<Call>, f: Faults, at: nat, g: Faults, bt: nat, s: Store)
    requires Healthy(f) && Healthy(g)
    ensures Run(cs, f, at, s) == Run(cs, g, bt, s)
  {
    if cs != [] {
      var e := Exec(cs[0], Fine, s);
      if e.ok {
        HealthyRunsAgree(cs[1..], f, at + 1, g, bt + 1, e.store);
      }
    }
  }

  /** Nothing a run does takes an object away, changes its content or status, or undoes a toleration. */
  ghost predicate Extends(s: Store, t: Store) {
    forall k :: k in s ==>
      && k in t
      && t[k].content == s[k].content && t[k].active == s[k].active
      && (t[k].tolerations == s[k].tolerations || t[k].tolerations == TOLERATED)
  }

  lemma ExtendsTransitive(s: Store, t: Store, u: Store)
    requires Extends(s, t) && Extends(t, u)
    ensures Extends(s, u)
  {
  }

  lemma {:induction false} RunExtends(cs: seq<Call>, f: Faults, at: nat, s: Store)
    ensures Extends(s, Run(cs, f, at, s).store)
  {
    if cs != [] {
      var e := Exec(cs[0], f(at), s);
      assert Extends(s, e.store);
      if e.ok {
        RunExtends(cs[1..], f, at + 1, e.store);
        ExtendsTransitive(s, e.store, Run(cs[1..], f, at + 1, e.store).store);
      }
    }
  }

  /** Call `c` has left its mark in the store. An optional patch leaves none that can be relied on, and
      policy objects are excepted because their owners may delete them again. */
  predicate Holds(c: Call, s: Store) {
    match c
    case Fetch => true
    case Invalid => false
    case Create(k, _) => IsPolicy(k) || k in s
    case Tolerate(k, optional) => optional || (k in s && s[k].tolerations == TOLERATED)
  }

  ghost predicate AllHold(cs: seq<Call>, s: Store) {
    forall c :: c in cs ==> Holds(c, s)
  }

  /** Later stores keep the marks: no object other than a policy disappears or loses its toleration. */
  ghost predicate Keeps(s: Store, t: Store) {
    forall k :: k in s && !IsPolicy(k) ==>
      k in t && (s[k].tolerations == TOLERATED ==> t[k].tolerations == TOLERATED)
  }

  /** A run that reports success has left every one of its marks, whatever failures it swallowed. */
  lemma {:induction false} SuccessLeavesMarks(cs: seq<Call>, f: Faults, at: nat, s: Store)
    requires Run(cs, f, at, s).ok
    requires forall c :: c in cs && c.Tolerate? ==> !IsPolicy(c.key)
    ensures AllHold(cs, Run(cs, f, at, s).store)
  {
    if cs != [] {
      var e := Exec(cs[0], f(at), s);
      RunExtends(cs[1..], f, at + 1, e.store);
      SuccessLeavesMarks(cs[1..], f, at + 1, e.store);
    }
  }

  /** No call fails from number `from` up to, not including, number `to`. */
  ghost predicate FineBetween(f: Faults, from: nat, to: nat) {
    forall n: nat :: from <= n < to ==> f(n) == Fine
  }

  /** A run without optional patches succeeds exactly if no call of it fails and it would succeed without failures. */
  lemma {:induction false} SucceedsIff(cs: seq<Call>, f: Faults, at: nat, g: Faults, bt: nat, s: Store)
    requires Healthy(g) && forall c :: c in cs ==> !(c.Tolerate? && c.optional)
    ensures Run(cs, f, at, s).ok <==> Run(cs, g, bt, s).ok && FineBetween(f, at, at + |cs|)
    ensures Run(cs, f, at, s).ok ==> Run(cs, f, at, s) == Run(cs, g, bt, s)
  {
    if cs != [] {
      assert cs[0] in cs;
      SucceedsIff(cs[1..], f, at + 1, g, bt + 1, Exec(cs[0], Fine, s).store);
      assert FineBetween(f, at, at + |cs|) <==> f(at) == Fine && FineBetween(f, at + 1, at + |cs|);
    }
  }

  /** An object that a run has added comes from one of its calls, and all calls before that one went through. */
  lemma {:induction false} AddedBy(cs: seq<Call>, f: Faults, at: nat, s: Store, k: ObjKey) returns (n: nat)
    requires k in Run(cs, f, at, s).store && k !in s
    requires forall c :: c in cs ==> !(c.Tolerate? && c.optional)
    ensures n < |cs| && cs[n].Create? && cs[n].key == k && FineBetween(f, at, at + n)
  {
    n := 0;
    assert cs[0] in cs;
    var e := Exec(cs[0], f(at), s);
    if k !in e.store {
      n := AddedBy(cs[1..], f, at + 1, e.store, k);
      n := n + 1;
    }
  }

  /** Only the last call may be an optional patch. */
  predicate OptionalOnlyLast(cs: seq<Call>) {
    forall i :: 0 <= i < |cs| - 1 ==> !(cs[i].Tolerate? && cs[i].optional)
  }

  /** Once a call has succeeded, repeating it on any later store of the run changes nothing. */
  lemma RepeatIsNoOp(c: Call, s: Store, t: Store)
    requires Exec(c, Fine, s).ok && Extends(Exec(c, Fine, s).store, t)
    requires !(c.Tolerate? && c.optional)
    ensures Exec(c, Fine, t) == Outcome(t, true)
  {
    if c.Tolerate? {
      assert t[c.key].(tolerations := TOLERATED) == t[c.key];
      assert Tolerated(t, c.key) == t;
    }
  }

  /** A failure-free run after a run with any faults ends as if the faulty run had never been. */
  lemma {:induction false} FaultyRunIsAbsorbed(cs: seq<Call>, f: Faults, at: nat, g: Faults, bt: nat, s: Store)
    requires Healthy(g) && OptionalOnlyLast(cs)
    ensures Run(cs, g, bt, Run(cs, f, at, s).store) == Run(cs, g, bt, s)
  {
    if cs != [] {
      var c := cs[0];
      var e := Exec(c, f(at), s);
      var clean := Exec(c, Fine, s);
      var rest := cs[1..];
      if |cs| == 1 {
        assert rest == [];
        assert Exec(c, Fine, e.store) == clean;
      } else if f(at) != Refused && clean.ok {
        assert e.store == clean.store;
        if e.ok {
          FaultyRunIsAbsorbed(rest, f, at + 1, g, bt + 1, e.store);
          RunExtends(rest, f, at + 1, e.store);
        }
        RepeatIsNoOp(c, s, Run(cs, f, at, s).store);
      } else {
        assert !e.ok && e.store == s;
      }
    }
  }
}
