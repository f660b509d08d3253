/** Rendered manifests, as applyManifest reads them. */
module Manifest {
  import opened Api
  import opened Remote

  /** One document of a YAML stream, by what the decoders make of it. */
  datatype Doc =
    | Malformed                        // the stream itself cannot be read on
    | Kindless                         // no kind: ends the file without an error
    | Unusable                         // a kind the scheme cannot decode or that is no API object
    | Object(key: ObjKey, obj: Obj)

  /** The call a document leads to. */
  function CallFor(d: Doc): Call {
    if d.Object? then Create(d.key, d.obj) else Invalid
  }

  /** The calls the documents of one file lead to. */
  function Calls(docs: seq<Doc>): (cs: seq<Call>)
    ensures |cs| == Readable(docs)
  {
    if docs == [] || docs[0].Kindless? then []
    else [CallFor(docs[0])] + Calls(docs[1..])
  }

  function FileCalls(files: seq<seq<Doc>>): seq<Call> {
    if files == [] then [] else Calls(files[0]) + FileCalls(files[1..])
  }

  /** The number of documents before the first without a kind. */
  function Readable(docs: seq<Doc>): (n: nat)
    ensures n <= |docs|
    ensures forall i :: 0 <= i < n ==> !docs[i].Kindless?
    ensures n < |docs| ==> docs[n].Kindless?
  {
    if docs == [] || docs[0].Kindless? then 0 else 1 + Readable(docs[1..])
  }

  /** What is left to run from document number `i` on, if that is an object. */
  lemma RunFromObject(docs: seq<Doc>, i: nat, f: Faults, at: nat, s: Store)
    requires i < |docs| && docs[i].Object?
    ensures |Calls(docs[i..])| == 1 + |Calls(docs[i + 1..])|
    ensures Run(Calls(docs[i..]), f, at, s) ==
            var e := Exec(Create(docs[i].key, docs[i].obj), f(at), s);
            if e.ok then Run(Calls(docs[i + 1..]), f, at + 1, e.store) else e
  {
    assert docs[i..][1..] == docs[i + 1..];
    RunCons(Create(docs[i].key, docs[i].obj), Calls(docs[i + 1..]), f, at, s);
  }

  lemma RunFromOther(docs: seq<Doc>, i: nat, f: Faults, at: nat, s: Store)
    requires i < |docs| && !docs[i].Object?
    ensures Run(Calls(docs[i..]), f, at, s) == Outcome(s, docs[i].Kindless?)
    ensures docs[i].Kindless? ==> Calls(docs[i..]) == []
  {
  }

  /** From document `i` on, with call number `n` and store `t`, the file still leads to outcome `all` and call `end`. */
  ghost predicate Applying(docs: seq<Doc>, i: nat, f: Faults, n: nat, t: Store, all: Outcome, end: nat)
    requires i <= |docs|
  {
    Run(Calls(docs[i..]), f, n, t) == all && n + |Calls(docs[i..])| == end
  }

  lemma ApplyNext(docs: seq<Doc>, i: nat, f: Faults, n: nat, t: Store, all: Outcome, end: nat)
    requires i < |docs| && docs[i].Object? && Applying(docs, i, f, n, t, all, end)
    ensures var e := Exec(Create(docs[i].key, docs[i].obj), f(n), t);
            if e.ok then Applying(docs, i + 1, f, n + 1, e.store, all, end) else all == e
  {
    RunFromObject(docs, i, f, n, t);
  }

  lemma ApplyStops(docs: seq<Doc>, i: nat, f: Faults, n: nat, t: Store, all: Outcome, end: nat)
    requires i <= |docs| && (i < |docs| ==> !docs[i].Object?) && Applying(docs, i, f, n, t, all, end)
    ensures var ok := i == |docs| || docs[i].Kindless?;
            all == Outcome(t, ok) && (ok ==> n == end)
  {
    if i < |docs| {
      RunFromOther(docs, i, f, n, t);
    } else {
      assert docs[i..] == [];
    }
  }

  lemma {:induction false} CallsAt(docs: seq<Doc>)
    ensures forall i :: 0 <= i < Readable(docs) ==> Calls(docs)[i] == CallFor(docs[i])
  {
    if docs != [] && !docs[0].Kindless? {
      CallsAt(docs[1..]);
    }
  }

  lemma {:induction false} FileCallsOnlyCreate(files: seq<seq<Doc>>)
    ensures forall c :: c in FileCalls(files) ==> c.Create? || c.Invalid?
  {
    if files != [] {
      CallsAt(files[0]);
      FileCallsOnlyCreate(files[1..]);
    }
  }

  /** The object that the earliest document for key `k` brings. */
  function Earliest(docs: seq<Doc>, k: ObjKey): Option<Obj> {
    if docs == [] then None
    else if docs[0].Object? && docs[0].key == k then Some(docs[0].obj)
    else Earliest(docs[1..], k)
  }

  lemma {:induction false} EarliestIsFirst(docs: seq<Doc>, k: ObjKey, i: nat)
    requires i < |docs| && docs[i].Object? && docs[i].key == k
    requires forall j :: 0 <= j < i ==> !(docs[j].Object? && docs[j].key == k)
    ensures Earliest(docs, k) == Some(docs[i].obj)
  {
    if i > 0 {
      EarliestIsFirst(docs[1..], k, i - 1);
    }
  }

  /** `t` is `s` with the objects of `docs` added: what was in `s` stays as it was, and of several
      documents for one key the earliest counts. */
  ghost predicate ExtendedBy(docs: seq<Doc>, s: Store, t: Store) {
    && (forall i :: 0 <= i < |docs| ==> docs[i].Object?)
    && (forall k :: k in t <==> k in s || Earliest(docs, k).Some?)
    && (forall k :: k in t ==> t[k] == if k in s then s[k] else Earliest(docs, k).value)
  }

  lemma ExtendFront(d: Doc, docs: seq<Doc>, s: Store, t: Store)
    requires d.Object? && ExtendedBy(docs, Created(s, d.key, d.obj), t)
    ensures ExtendedBy([d] + docs, s, t)
  {
    forall k
      ensures Earliest([d] + docs, k) == if d.key == k then Some(d.obj) else Earliest(docs, k)
    {
      assert ([d] + docs)[1..] == docs;
    }
  }

  /** The law of applyManifest: whatever fails, the store is the old one extended by the first `n` readable
      documents; by all of them if no error is reported; and a failure-free pass stops early only in front
      of a document that is no object. */
  lemma {:induction false} ManifestLaw(docs: seq<Doc>, f: Faults, at: nat, s: Store) returns (n: nat)
    ensures n <= Readable(docs)
    ensures var r := Run(Calls(docs), f, at, s);
            && ExtendedBy(docs[..n], s, r.store)
            && (r.ok ==> n == Readable(docs))
            && (Healthy(f) && !r.ok ==> n < Readable(docs) && !docs[n].Object?)
  {
    n := 0;
    if docs != [] && docs[0].Object? {
      var d := docs[0];
      var e := Exec(Calls(docs)[0], f(at), s);
      assert Calls(docs)[1..] == Calls(docs[1..]);
      if e.ok {
        var m := ManifestLaw(docs[1..], f, at + 1, e.store);
        n := m + 1;
        ExtendFront(d, docs[1..][..m], s, Run(Calls(docs), f, at, s).store);
        assert docs[..n] == [d] + docs[1..][..m];
      } else if f(at) == Lost {
        n := 1;
        ExtendFront(d, [], s, e.store);
        assert docs[..1] == [d] + [];
      }
    }
  }

  // ----- several files -----

  /** Document `i` of file `a` is one that is read. */
  predicate Reads(files: seq<seq<Doc>>, a: nat, i: nat) {
    a < |files| && i < Readable(files[a])
  }

  /** Document `i` of file `a` stands in front of document `n` of file `m`. */
  predicate InFront(a: nat, i: nat, m: nat, n: nat) {
    a < m || (a == m && i < n)
  }

  predicate Carries(files: seq<seq<Doc>>, k: ObjKey, a: nat, i: nat) {
    Reads(files, a, i) && files[a][i].Object? && files[a][i].key == k
  }

  /** The first document for key `k`, file by file. */
  ghost predicate FirstFor(files: seq<seq<Doc>>, k: ObjKey, a: nat, i: nat) {
    && Carries(files, k, a, i)
    && forall b: nat, j: nat :: Carries(files, k, b, j) ==> !InFront(b, j, a, i)
  }

  /** What applying the documents in front of document `n` of file `m` does to key `k`: an object that is there stays as
      it is, else the first document for it counts. */
  ghost predicate Placed(files: seq<seq<Doc>>, m: nat, n: nat, k: ObjKey, s: Store, t: Store) {
    && (k in s ==> k in t && t[k] == s[k])
    && (k !in s ==> forall a: nat, i: nat :: FirstFor(files, k, a, i) && InFront(a, i, m, n) ==>
                      k in t && t[k] == files[a][i].obj)
    && (k !in s && k in t ==> exists a: nat, i: nat :: FirstFor(files, k, a, i) && InFront(a, i, m, n))
  }

  lemma {:induction false} EarliestAt(docs: seq<Doc>, k: ObjKey) returns (i: nat)
    requires Earliest(docs, k).Some?
    ensures i < |docs| && docs[i].Object? && docs[i].key == k && Earliest(docs, k) == Some(docs[i].obj)
    ensures forall j :: 0 <= j < i ==> !(docs[j].Object? && docs[j].key == k)
  {
    i := 0;
    if !(docs[0].Object? && docs[0].key == k) {
      i := EarliestAt(docs[1..], k);
      i := i + 1;
    }
  }

  lemma {:induction false} NoneEarliest(docs: seq<Doc>, k: ObjKey)
    requires Earliest(docs, k).None?
    ensures forall j :: 0 <= j < |docs| ==> !(docs[j].Object? && docs[j].key == k)
  {
    if docs != [] {
      NoneEarliest(docs[1..], k);
    }
  }

  /** The first file, of which the first `n` documents have been applied. */
  lemma PlacedInFirst(files: seq<seq<Doc>>, n: nat, k: ObjKey, s: Store, t: Store)
    requires files != [] && n <= Readable(files[0]) && ExtendedBy(files[0][..n], s, t)
    ensures Placed(files, 0, n, k, s, t)
  {
    var docs := files[0][..n];
    assert forall j :: 0 <= j < n ==> docs[j] == files[0][j];
    if Earliest(docs, k).Some? {
      var i := EarliestAt(docs, k);
      assert FirstFor(files, k, 0, i);
    } else {
      NoneEarliest(docs, k);
    }
  }

  /** A key that the first file does not carry is first carried where the others first carry it. */
  lemma FirstInRest(files: seq<seq<Doc>>, k: ObjKey, a: nat, i: nat)
    requires files != [] && a > 0 && forall j: nat :: !Carries(files, k, 0, j)
    ensures FirstFor(files, k, a, i) <==> FirstFor(files[1..], k, a - 1, i)
  {
    var rest := files[1..];
    forall b: nat, j: nat | b > 0
      ensures Carries(files, k, b, j) <==> Carries(rest, k, b - 1, j)
    {
    }
    if FirstFor(files, k, a, i) {
      forall b: nat, j: nat | Carries(rest, k, b, j)
        ensures !InFront(b, j, a - 1, i)
      {
        assert Carries(files, k, b + 1, j);
      }
    }
  }

  lemma PlacedInRest(files: seq<seq<Doc>>, m: nat, n: nat, k: ObjKey, s: Store, s1: Store, t: Store)
    requires files != [] && ExtendedBy(files[0][..Readable(files[0])], s, s1) && Placed(files[1..], m, n, k, s1, t)
    ensures Placed(files, m + 1, n, k, s, t)
  {
    var docs := files[0][..Readable(files[0])];
    assert forall j :: 0 <= j < |docs| ==> docs[j] == files[0][j];
    PlacedInFirst(files, Readable(files[0]), k, s, s1);
    if Earliest(docs, k).Some? {
      var i := EarliestAt(docs, k);
      assert docs[i] == files[0][i] && Carries(files, k, 0, i);
      if k !in s {
        assert exists b: nat, j: nat :: FirstFor(files, k, b, j) && InFront(b, j, 0, Readable(files[0]));
        forall b: nat, j: nat | FirstFor(files, k, b, j)
          ensures InFront(b, j, 0, Readable(files[0]))
        {
        }
      }
    } else {
      NoneEarliest(docs, k);
      assert forall j: nat :: !Carries(files, k, 0, j);
      forall a: nat, i: nat | a > 0
        ensures FirstFor(files, k, a, i) <==> FirstFor(files[1..], k, a - 1, i)
      {
        FirstInRest(files, k, a, i);
      }
      if k !in s && k in t {
        var a: nat, i: nat :| FirstFor(files[1..], k, a, i) && InFront(a, i, m, n);
        assert FirstFor(files, k, a + 1, i) && InFront(a + 1, i, m + 1, n);
      }
    }
  }

  ghost predicate AllPlaced(files: seq<seq<Doc>>, m: nat, n: nat, s: Store, t: Store) {
    forall k :: Placed(files, m, n, k, s, t)
  }

  /** Every document in front of document `n` of file `m` is an object. */
  ghost predicate ObjectsUpTo(files: seq<seq<Doc>>, m: nat, n: nat) {
    forall a: nat, i: nat :: Reads(files, a, i) && InFront(a, i, m, n) ==> files[a][i].Object?
  }

  lemma ObjectsInRest(files: seq<seq<Doc>>, m: nat, n: nat)
    requires files != [] && ObjectsUpTo(files[1..], m, n)
    requires forall i :: 0 <= i < Readable(files[0]) ==> files[0][i].Object?
    ensures ObjectsUpTo(files, m + 1, n)
  {
    forall a: nat, i: nat | Reads(files, a, i) && InFront(a, i, m + 1, n)
      ensures files[a][i].Object?
    {
      assert a > 0 ==> Reads(files[1..], a - 1, i) && InFront(a - 1, i, m, n);
    }
  }

  lemma AllPlacedInFirst(files: seq<seq<Doc>>, n: nat, s: Store, t: Store)
    requires files != [] && n <= Readable(files[0]) && ExtendedBy(files[0][..n], s, t)
    ensures AllPlaced(files, 0, n, s, t)
  {
    forall k
      ensures Placed(files, 0, n, k, s, t)
    {
      PlacedInFirst(files, n, k, s, t);
    }
  }

  lemma AllPlacedInRest(files: seq<seq<Doc>>, m: nat, n: nat, s: Store, s1: Store, t: Store)
    requires files != [] && ExtendedBy(files[0][..Readable(files[0])], s, s1) && AllPlaced(files[1..], m, n, s1, t)
    ensures AllPlaced(files, m + 1, n, s, t)
  {
    var m' := m + 1;
    forall k
      ensures Placed(files, m', n, k, s, t)
    {
      PlacedInRest(files, m, n, k, s, s1, t);
    }
  }

  /** A run of the files from store `s` with outcome `r` has applied what stands in front of document `n` of file `m`:
      all files if no error is reported; and if none of its calls failed (`healthy`) it has stopped only at a document
      that is no object. */
  ghost predicate AppliedUpTo(files: seq<seq<Doc>>, m: nat, n: nat, s: Store, r: Outcome, healthy: bool) {
    && ((m < |files| && n <= Readable(files[m])) || (m == |files| && n == 0))
    && ObjectsUpTo(files, m, n)
    && AllPlaced(files, m, n, s, r.store)
    && (r.ok ==> m == |files|)
    && (healthy && !r.ok ==> Reads(files, m, n) && !files[m][n].Object?)
  }

  lemma FirstFileFails(files: seq<seq<Doc>>, f: Faults, at: nat, s: Store, healthy: bool) returns (n: nat)
    requires files != [] && !Run(Calls(files[0]), f, at, s).ok && (healthy ==> Healthy(f))
    ensures AppliedUpTo(files, 0, n, s, Run(Calls(files[0]), f, at, s), healthy)
  {
    n := ManifestLaw(files[0], f, at, s);
    AllPlacedInFirst(files, n, s, Run(Calls(files[0]), f, at, s).store);
    assert forall i :: 0 <= i < n ==> files[0][..n][i] == files[0][i];
  }

  lemma FirstFileDone(files: seq<seq<Doc>>, f: Faults, at: nat, s: Store, m: nat, n: nat, r: Outcome, healthy: bool)
    requires files != [] && Run(Calls(files[0]), f, at, s).ok
    requires AppliedUpTo(files[1..], m, n, Run(Calls(files[0]), f, at, s).store, r, healthy)
    ensures AppliedUpTo(files, m + 1, n, s, r, healthy)
  {
    var k := ManifestLaw(files[0], f, at, s);
    assert forall i :: 0 <= i < k ==> files[0][..k][i] == files[0][i];
    AllPlacedInRest(files, m, n, s, Run(Calls(files[0]), f, at, s).store, r.store);
    ObjectsInRest(files, m, n);
  }

  lemma FilesInTurn(files: seq<seq<Doc>>, f: Faults, at: nat, s: Store)
    requires files != []
    ensures var r := Run(Calls(files[0]), f, at, s);
            Run(FileCalls(files), f, at, s) ==
            if r.ok then Run(FileCalls(files[1..]), f, at + |Calls(files[0])|, r.store) else r
  {
    RunConcat(Calls(files[0]), FileCalls(files[1..]), f, at, s);
  }

  /** The law of a row of files: whatever fails, what has been applied is the first `m` files and `n` documents of the
      next, over all files with existing objects and then the first document for a key winning; all files if no error is
      reported; and without failures they stop early only in front of a document that is no object. */
  lemma {:induction false} FilesLaw(files: seq<seq<Doc>>, f: Faults, at: nat, s: Store, healthy: bool)
    returns (m: nat, n: nat)
    requires healthy ==> Healthy(f)
    ensures AppliedUpTo(files, m, n, s, Run(FileCalls(files), f, at, s), healthy)
    decreases |files|
  {
    m, n := 0, 0;
    if files != [] {
      FilesInTurn(files, f, at, s);
      var r := Run(Calls(files[0]), f, at, s);
      if r.ok {
        m, n := FilesLaw(files[1..], f, at + |Calls(files[0])|, r.store, healthy);
        FirstFileDone(files, f, at, s, m, n, Run(FileCalls(files), f, at, s), healthy);
        m := m + 1;
      } else {
        n := FirstFileFails(files, f, at, s, healthy);
      }
    }
  }

  /** How many documents of the files are read. */
  function Documents(files: seq<seq<Doc>>): nat {
    if files == [] then 0 else Readable(files[0]) + Documents(files[1..])
  }

  lemma {:induction false} FileCallsConcat(a: seq<seq<Doc>>, b: seq<seq<Doc>>)
    ensures FileCalls(a + b) == FileCalls(a) + FileCalls(b)
    ensures Documents(a + b) == Documents(a) + Documents(b)
  {
    if a == [] {
      assert a + b == b;
    } else {
      var rest := a[1..];
      assert (a + b)[1..] == rest + b && (a + b)[0] == a[0];
      FileCallsConcat(rest, b);
      Regroup(Calls(a[0]), FileCalls(rest), FileCalls(b));
    }
  }

  /** The calls are those of the documents that are read. */
  lemma {:induction false} OneCallEach(files: seq<seq<Doc>>)
    ensures |FileCalls(files)| == Documents(files)
    ensures forall a: nat, i: nat :: Reads(files, a, i) ==> CallFor(files[a][i]) in FileCalls(files)
    ensures forall c :: c in FileCalls(files) ==>
      exists a: nat, i: nat :: Reads(files, a, i) && c == CallFor(files[a][i])
  {
    if files != [] {
      var docs, rest := files[0], files[1..];
      OneCallEach(rest);
      CallsAt(docs);
      forall a: nat, i: nat | Reads(files, a, i)
        ensures CallFor(files[a][i]) in FileCalls(files)
      {
        if a == 0 {
          assert Calls(docs)[i] in Calls(docs);
        } else {
          assert Reads(rest, a - 1, i);
        }
      }
      forall c | c in FileCalls(files)
        ensures exists a: nat, i: nat :: Reads(files, a, i) && c == CallFor(files[a][i])
      {
        if c in Calls(docs) {
          var i: nat :| i < |Calls(docs)| && Calls(docs)[i] == c;
          assert Reads(files, 0, i);
        } else {
          var a: nat, i: nat :| Reads(rest, a, i) && c == CallFor(rest[a][i]);
          assert Reads(files, a + 1, i) && files[a + 1] == rest[a];
        }
      }
    }
  }

  /** Applying a manifest again after any broken-off attempt ends like applying it once. */
  lemma ManifestRerun(docs: seq<Doc>, f: Faults, at: nat, g: Faults, bt: nat, s: Store)
    requires Healthy(g)
    ensures Run(Calls(docs), g, bt, Run(Calls(docs), f, at, s).store) == Run(Calls(docs), g, bt, s)
  {
    CallsAt(docs);
    FaultyRunIsAbsorbed(Calls(docs), f, at, g, bt, s);
  }

  /** "Skip it" is not what happens to a document without a kind: nothing behind it is ever applied. */
  lemma {:induction false} NothingBehindKindless(before: seq<Doc>, behind: seq<Doc>)
    ensures Calls(before + [Kindless] + behind) == Calls(before)
  {
    var docs := before + [Kindless] + behind;
    if before == [] {
      assert docs[0] == Kindless;
    } else {
      assert docs[0] == before[0];
      assert docs[1..] == before[1..] + [Kindless] + behind;
      NothingBehindKindless(before[1..], behind);
    }
  }

  /** What the comment in the source intends: documents without a kind are passed over. */
  function Skipping(docs: seq<Doc>): seq<Doc> {
    if docs == [] then []
    else (if docs[0].Kindless? then [] else [docs[0]]) + Skipping(docs[1..])
  }

  lemma {:induction false} SkippingEmpty(docs: seq<Doc>)
    ensures Skipping(docs) == [] <==> forall i :: 0 <= i < |docs| ==> docs[i].Kindless?
  {
    if docs != [] {
      SkippingEmpty(docs[1..]);
      assert docs == [docs[0]] + docs[1..];
    }
  }

  lemma {:induction false} SkippingCalls(docs: seq<Doc>)
    ensures |Calls(Skipping(docs))| == |Skipping(docs)|
    ensures Skipping(docs) == [] <==> forall i :: 0 <= i < |docs| ==> docs[i].Kindless?
  {
    SkippingEmpty(docs);
    if docs != [] {
      SkippingCalls(docs[1..]);
      if docs[0].Kindless? {
        assert Skipping(docs) == Skipping(docs[1..]);
      } else {
        assert Skipping(docs)[0] == docs[0] && Skipping(docs)[1..] == Skipping(docs[1..]);
      }
    }
  }

  predicate OnlyKindlessFollow(docs: seq<Doc>) {
    forall i :: Readable(docs) <= i < |docs| ==> docs[i].Kindless?
  }

  /** A document that is no object stands in front of the first without a kind. */
  predicate Broken(docs: seq<Doc>) {
    exists i :: 0 <= i < Readable(docs) && !docs[i].Object?
  }

  /** The calls are the intended ones exactly if behind the first document without a kind there are only such. */
  lemma {:induction false} SameCallsIff(docs: seq<Doc>)
    ensures Calls(docs) == Calls(Skipping(docs)) <==> OnlyKindlessFollow(docs)
  {
    if docs != [] {
      var rest := docs[1..];
      if docs[0].Kindless? {
        SkippingCalls(docs);
      } else {
        SameCallsIff(rest);
        assert Skipping(docs)[0] == docs[0] && Skipping(docs)[1..] == Skipping(rest);
        assert Calls(docs)[1..] == Calls(rest) && Calls(Skipping(docs))[1..] == Calls(Skipping(rest));
        forall i | 0 < i < |docs|
          ensures docs[i] == rest[i - 1]
        {
        }
        if OnlyKindlessFollow(docs) {
          forall i | Readable(rest) <= i < |rest|
            ensures rest[i].Kindless?
          {
            assert docs[i + 1].Kindless?;
          }
        }
      }
    }
  }

  /** A broken file ends at its first document that is no object, whatever is passed over behind it. */
  lemma {:induction false} BrokenEndsEarly(docs: seq<Doc>, f: Faults, at: nat, s: Store)
    requires Broken(docs)
    ensures Run(Calls(docs), f, at, s) == Run(Calls(Skipping(docs)), f, at, s)
  {
    var d, rest := docs[0], docs[1..];
    var c := CallFor(d);
    RunCons(c, Calls(rest), f, at, s);
    assert Skipping(docs)[0] == d && Skipping(docs)[1..] == Skipping(rest);
    RunCons(c, Calls(Skipping(rest)), f, at, s);
    if d.Object? {
      assert Broken(rest) by {
        var i :| 0 <= i < Readable(docs) && !docs[i].Object?;
        assert rest[i - 1] == docs[i];
      }
      BrokenEndsEarly(rest, f, at + 1, Exec(c, f(at), s).store);
    }
  }

  lemma RestUnbroken(docs: seq<Doc>)
    requires docs != [] && !docs[0].Kindless? && !Broken(docs) && !OnlyKindlessFollow(docs)
    ensures docs[0].Object? && !Broken(docs[1..]) && !OnlyKindlessFollow(docs[1..])
    ensures Readable(docs) == 1 + Readable(docs[1..])
  {
    var rest := docs[1..];
    var i :| Readable(docs) <= i < |docs| && !docs[i].Kindless?;
    assert rest[i - 1] == docs[i];
    forall i | 0 <= i < Readable(rest)
      ensures rest[i].Object?
    {
      assert rest[i] == docs[i + 1];
    }
  }

  /** The first document, if it is an object, is the same call in both. */
  lemma SkippingRunsFirst(docs: seq<Doc>, f: Faults, at: nat, s: Store)
    requires docs != [] && docs[0].Object? && f(at) == Fine
    ensures var t := Created(s, docs[0].key, docs[0].obj);
            && Run(Calls(docs), f, at, s) == Run(Calls(docs[1..]), f, at + 1, t)
            && Run(Calls(Skipping(docs)), f, at, s) == Run(Calls(Skipping(docs[1..])), f, at + 1, t)
  {
    var c := Create(docs[0].key, docs[0].obj);
    RunCons(c, Calls(docs[1..]), f, at, s);
    assert Skipping(docs)[0] == docs[0] && Skipping(docs)[1..] == Skipping(docs[1..]);
    RunCons(c, Calls(Skipping(docs[1..])), f, at, s);
  }

  /** If the call behind the last readable document is refused, only the intended calls notice. */
  lemma {:induction false} RefusedBehind(docs: seq<Doc>, f: Faults, at: nat, s: Store)
    requires !Broken(docs) && !OnlyKindlessFollow(docs)
    requires forall n: nat :: f(n) == if n == at + Readable(docs) then Refused else Fine
    ensures Run(Calls(docs), f, at, s).ok && !Run(Calls(Skipping(docs)), f, at, s).ok
  {
    if docs[0].Kindless? {
      SkippingCalls(docs);
      assert Skipping(docs) != [];
    } else {
      RestUnbroken(docs);
      SkippingRunsFirst(docs, f, at, s);
      RefusedBehind(docs[1..], f, at + 1, Created(s, docs[0].key, docs[0].obj));
    }
  }

  /** Whatever the store and whatever fails, the file ends as if documents without a kind were passed over. */
  ghost predicate SameEffect(docs: seq<Doc>) {
    forall f: Faults, at: nat, s: Store :: Run(Calls(docs), f, at, s) == Run(Calls(Skipping(docs)), f, at, s)
  }

  /** The code does what the comment says exactly on two sorts of files: those it gives up with an error in front of
      the first document without a kind, and those in which only such documents follow the first. */
  lemma SkipsIff(docs: seq<Doc>)
    ensures SameEffect(docs) <==> Broken(docs) || OnlyKindlessFollow(docs)
  {
    if Broken(docs) {
      forall f: Faults, at: nat, s: Store
        ensures Run(Calls(docs), f, at, s) == Run(Calls(Skipping(docs)), f, at, s)
      {
        BrokenEndsEarly(docs, f, at, s);
      }
    } else if OnlyKindlessFollow(docs) {
      SameCallsIff(docs);
    } else {
      var f: Faults := n => if n == Readable(docs) then Refused else Fine;
      RefusedBehind(docs, f, 0, map[]);
      assert Run(Calls(docs), f, 0, map[]) != Run(Calls(Skipping(docs)), f, 0, map[]);
    }
  }

  /** An input on which the two differ: with a document without a kind in front of any object, the file is applied
      without an error and the object is missing. */
  lemma KindlessHidesObject(k: ObjKey, o: Obj, f: Faults, at: nat, s: Store)
    requires Healthy(f) && k !in s
    ensures var docs := [Kindless, Object(k, o)];
            && Run(Calls(docs), f, at, s) == Outcome(s, true)
            && Run(Calls(Skipping(docs)), f, at, s) == Outcome(s[k := o], true)
  {
    var docs := [Kindless, Object(k, o)];
    assert docs[1..] == [Object(k, o)] && docs[1..][1..] == [];
    assert [Object(k, o)][1..] == [];
    assert Skipping([Object(k, o)]) == [Object(k, o)] + [];
    assert Skipping(docs) == [] + Skipping([Object(k, o)]);
    assert Calls([Object(k, o)]) == [Create(k, o)] + [];
    RunCons(Create(k, o), [], f, at, s);
  }
}
