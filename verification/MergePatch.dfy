/** JSON merge patches (RFC 7396), as both controllers' clients compute and the API server applies them. */
module MergePatch {
  import opened Api
  import Remote
  import Addon = AddonPass

  datatype Json =
    | Null
    | Bool(b: bool)
    | Num(n: int)
    | Str(s: string)
    | Arr(items: seq<Json>)
    | Object(fields: map<string, Json>)

  function Fields(j: Json): map<string, Json> {
    if j.Object? then j.fields else map[]
  }

  /** A missing member reads as null, which a merge patch cannot tell apart. */
  function Member(j: Json, k: string): Json {
    if k in Fields(j) then Fields(j)[k] else Null
  }

  /** MergePatch(Target, Patch) of section 2 of RFC 7396. */
  function Merge(target: Json, patch: Json): Json
    decreases patch
  {
    if patch.Object? then
      Object(map k | k in Fields(target).Keys + patch.fields.Keys && !(k in patch.fields && patch.fields[k].Null?) ::
        if k in patch.fields then Merge(Member(target, k), patch.fields[k]) else Fields(target)[k])
    else
      patch
  }

  /** The patch between two objects: null for what is gone, a patch for objects on both sides, else the new value. */
  function Diff(a: Json, b: Json): Json
    requires a.Object? && b.Object?
    decreases b
  {
    Object(map k | k in a.fields.Keys + b.fields.Keys
                && !(k in a.fields && k in b.fields && a.fields[k] == b.fields[k]) ::
      if k !in b.fields then Null
      else if k in a.fields && a.fields[k].Object? && b.fields[k].Object? then Diff(a.fields[k], b.fields[k])
      else b.fields[k])
  }

  predicate NullFree(j: Json) {
    j.Object? ==> forall k :: k in j.fields ==> !j.fields[k].Null? && NullFree(j.fields[k])
  }

  /** A patch can turn `a` into `b`: wherever they differ, and are not both objects, `b` has no null member. */
  predicate Expressible(a: Json, b: Json)
    requires a.Object? && b.Object?
    decreases b
  {
    forall k :: k in b.fields && !(k in a.fields && a.fields[k] == b.fields[k]) ==>
      if k in a.fields && a.fields[k].Object? && b.fields[k].Object? then Expressible(a.fields[k], b.fields[k])
      else !b.fields[k].Null? && NullFree(b.fields[k])
  }

  lemma {:induction false} MergeOntoNothing(target: Json, patch: Json)
    requires !target.Object?
    ensures Merge(target, patch) == patch <==> NullFree(patch)
    decreases patch
  {
    if patch.Object? {
      var r := Merge(target, patch);
      forall k | k in patch.fields
        ensures Merge(Null, patch.fields[k]) == patch.fields[k] <==> NullFree(patch.fields[k])
      {
        MergeOntoNothing(Null, patch.fields[k]);
      }
      if NullFree(patch) {
        assert r.fields == patch.fields;
      } else {
        var k :| k in patch.fields && (patch.fields[k].Null? || !NullFree(patch.fields[k]));
        assert k !in r.fields || r.fields[k] != patch.fields[k];
      }
    }
  }

  /** How the member `k` comes out when the difference is applied. */
  lemma DiffMember(a: Json, b: Json, k: string)
    requires a.Object? && b.Object?
    ensures var r := Merge(a, Diff(a, b));
            && (k !in b.fields ==> k !in r.fields)
            && (k in a.fields && k in b.fields && a.fields[k] == b.fields[k] ==>
                  k in r.fields && r.fields[k] == b.fields[k])
            && (k in b.fields && !(k in a.fields && a.fields[k] == b.fields[k]) ==>
                 if k in a.fields && a.fields[k].Object? && b.fields[k].Object?
                 then k in r.fields && r.fields[k] == Merge(a.fields[k], Diff(a.fields[k], b.fields[k]))
                 else if b.fields[k].Null? then k !in r.fields
                 else k in r.fields && r.fields[k] == Merge(Member(a, k), b.fields[k]))
  {
  }

  lemma MergeReplaces(target: Json, patch: Json)
    requires !(target.Object? && patch.Object?)
    ensures Merge(target, patch) == patch <==> NullFree(patch)
  {
    if patch.Object? {
      MergeOntoNothing(target, patch);
    }
  }

  /** Applied to the object it was computed from, the difference gives the new object exactly when that is
      expressible. */
  lemma {:induction false} PatchRoundTripIff(a: Json, b: Json)
    requires a.Object? && b.Object?
    ensures Merge(a, Diff(a, b)) == b <==> Expressible(a, b)
    decreases b
  {
    var r := Merge(a, Diff(a, b));
    forall k
      ensures k in b.fields && !(k in a.fields && a.fields[k] == b.fields[k]) ==>
        ((k in r.fields && r.fields[k] == b.fields[k]) <==>
         (if k in a.fields && a.fields[k].Object? && b.fields[k].Object? then Expressible(a.fields[k], b.fields[k])
          else !b.fields[k].Null? && NullFree(b.fields[k])))
      ensures k !in b.fields ==> k !in r.fields
      ensures k in b.fields && k in a.fields && a.fields[k] == b.fields[k] ==>
                k in r.fields && r.fields[k] == b.fields[k]
    {
      DiffMember(a, b, k);
      if k in b.fields && !(k in a.fields && a.fields[k] == b.fields[k]) {
        if k in a.fields && a.fields[k].Object? && b.fields[k].Object? {
          PatchRoundTripIff(a.fields[k], b.fields[k]);
        } else {
          MergeReplaces(Member(a, k), b.fields[k]);
        }
      }
    }
    if Expressible(a, b) {
      assert r.fields == b.fields;
    } else {
      var k :| k in b.fields && !(k in a.fields && a.fields[k] == b.fields[k]) &&
        !(if k in a.fields && a.fields[k].Object? && b.fields[k].Object? then Expressible(a.fields[k], b.fields[k])
          else !b.fields[k].Null? && NullFree(b.fields[k]));
      assert !(k in r.fields && r.fields[k] == b.fields[k]);
    }
  }

  // ----- patches of one member -----

  function With(j: Json, k: string, v: Json): Json {
    Object(Fields(j)[k := v])
  }

  function Only(k: string, v: Json): Json {
    Object(map[k := v])
  }

  /** Objects that differ in one member differ by a patch of that member. */
  lemma DiffOneMember(a: Json, k: string, v: Json)
    requires a.Object? && Member(a, k) != v
    ensures Diff(a, With(a, k, v)) ==
            Only(k, if k in a.fields && a.fields[k].Object? && v.Object? then Diff(a.fields[k], v) else v)
  {
    var d := Diff(a, With(a, k, v));
    assert d.fields.Keys == {k};
    assert With(a, k, v).fields[k] == v;
    assert d.fields == map[k := d.fields[k]];
  }

  lemma MergeOneMember(target: Json, k: string, v: Json)
    requires !v.Null?
    ensures Merge(target, Only(k, v)) == With(target, k, Merge(Member(target, k), v))
  {
    var r := Merge(target, Only(k, v));
    assert r.fields == Fields(target)[k := Merge(Member(target, k), v)];
  }

  // ----- the annotation patch -----

  /** The object with the install annotation set and nothing else touched. */
  function SetInstalled(c: Json): Json {
    var metadata := Member(c, "metadata");
    With(c, "metadata",
      With(metadata, "annotations",
        With(Member(metadata, "annotations"), INSTALLED, Str("true"))))
  }

  const ANNOTATION_PATCH := Only("metadata", Only("annotations", Only(INSTALLED, Str("true"))))

  /** The patch computed for a snapshot without the annotation carries the annotation and nothing else. */
  lemma AnnotationDiff(c: Json)
    requires c.Object? && Member(c, "metadata").Object?
    requires var m := Member(c, "metadata"); "annotations" in m.fields ==> m.fields["annotations"].Object?
    requires Member(Member(Member(c, "metadata"), "annotations"), INSTALLED) != Str("true")
    ensures Diff(c, SetInstalled(c)) == ANNOTATION_PATCH
  {
    var m := Member(c, "metadata");
    var a := Member(m, "annotations");
    var a' := With(a, INSTALLED, Str("true"));
    assert Member(a', INSTALLED) == Str("true");
    DiffOneMember(m, "annotations", a');
    var m' := With(m, "annotations", a');
    assert Member(m', "annotations") == a';
    DiffOneMember(c, "metadata", m');
    if "annotations" in m.fields {
      DiffOneMember(a, INSTALLED, Str("true"));
    }
  }

  /** Applied to any server version whatsoever, that patch sets the annotation and nothing else. */
  lemma AnnotationPatchApplies(server: Json)
    ensures Merge(server, ANNOTATION_PATCH) == SetInstalled(server)
  {
    var m := Member(server, "metadata");
    MergeOneMember(server, "metadata", Only("annotations", Only(INSTALLED, Str("true"))));
    MergeOneMember(m, "annotations", Only(INSTALLED, Str("true")));
    MergeOneMember(Member(m, "annotations"), INSTALLED, Str("true"));
  }

  function Strings(m: map<string, string>): Json {
    Object(map k | k in m :: Str(m[k]))
  }

  /** Metadata on the wire: an empty annotation map is left out. */
  function MetadataJson(base: map<string, Json>, annotations: map<string, string>): Json {
    Object(if annotations == map[] then base else base["annotations" := Strings(annotations)])
  }

  function MetadataBase(c: Cluster): map<string, Json> {
    var names := map["name" := Str(c.key.name), "namespace" := Str(c.key.namespace)];
    if c.labels == map[] then names else names["labels" := Strings(c.labels)]
  }

  function StatusJson(c: Cluster): Json {
    var condition := Object(map["type" := Str("ControlPlaneReady"),
                                "status" := Str(if c.readyCondition then "True" else "False")]);
    Object(map["controlPlaneReady" := Bool(c.controlPlaneReady), "conditions" := Arr([condition])])
  }

  /** The cluster on the wire; `others` stands for whatever else the object holds. */
  function ClusterJson(c: Cluster, others: map<string, Json>): Json {
    var top := others["kind" := Str(c.kind)]["apiVersion" := Str(c.apiVersion)]["status" := StatusJson(c)];
    Object(top["metadata" := MetadataJson(MetadataBase(c), Annotations(c))])
  }

  lemma AnnotatedMetadata(base: map<string, Json>, a: map<string, string>)
    requires "annotations" !in base
    ensures MetadataJson(base, a[INSTALLED := "true"]) ==
            With(MetadataJson(base, a), "annotations",
                 With(Member(MetadataJson(base, a), "annotations"), INSTALLED, Str("true")))
  {
    var a' := a[INSTALLED := "true"];
    assert INSTALLED in a';
    var m := MetadataJson(base, a);
    assert Fields(Member(m, "annotations")) == Strings(a).fields by {
      if a == map[] {
        assert "annotations" !in m.fields;
        assert Strings(a).fields == map[];
      }
    }
    assert Strings(a').fields == Strings(a).fields[INSTALLED := Str("true")];
    assert MetadataJson(base, a').fields == m.fields["annotations" := Strings(a')];
  }

  lemma AnnotatedJson(c: Cluster, others: map<string, Json>)
    ensures ClusterJson(Annotated(c), others) == SetInstalled(ClusterJson(c, others))
  {
    AnnotatedMetadata(MetadataBase(c), Annotations(c));
    var j, j' := ClusterJson(c, others), ClusterJson(Annotated(c), others);
    assert Member(j, "metadata") == MetadataJson(MetadataBase(c), Annotations(c));
    assert MetadataBase(Annotated(c)) == MetadataBase(c) && StatusJson(Annotated(c)) == StatusJson(c);
    assert j'.fields == SetInstalled(j).fields;
  }

  /** A cluster has an annotation exactly if it has it on the wire. */
  lemma AnnotationOnTheWire(c: Cluster, others: map<string, Json>, annotation: string)
    ensures HasAnnotation(c, annotation) <==>
            annotation in Fields(Member(Member(ClusterJson(c, others), "metadata"), "annotations"))
  {
    var m := MetadataJson(MetadataBase(c), Annotations(c));
    assert Member(ClusterJson(c, others), "metadata") == m;
    assert "annotations" !in MetadataBase(c);
    if Annotations(c) == map[] {
      assert Member(m, "annotations") == Null;
    } else {
      assert Member(m, "annotations") == Strings(Annotations(c));
    }
  }

  /** What the addon controller sends for an unannotated snapshot, however stale, annotates the cluster that the
      server has, whatever that has become meanwhile. */
  lemma StaleAnnotationPatch(snapshot: Cluster, others: map<string, Json>, server: Cluster, others': map<string, Json>)
    requires !HasAnnotation(snapshot, INSTALLED)
    ensures var patch := Diff(ClusterJson(snapshot, others), ClusterJson(Annotated(snapshot), others));
            Merge(ClusterJson(server, others'), patch) == ClusterJson(Annotated(server), others')
  {
    AnnotatedJson(snapshot, others);
    AnnotatedJson(server, others');
    var j := ClusterJson(snapshot, others);
    var m := Member(j, "metadata");
    assert INSTALLED !in Fields(Member(m, "annotations"));
    AnnotationDiff(j);
    AnnotationPatchApplies(ClusterJson(server, others'));
  }

  // ----- the addon's status patch -----

  function SetStatus(addon: Json, k: string, v: Json): Json {
    With(addon, "status", With(Member(addon, "status"), k, v))
  }

  /** The snapshot is taken after the matching clusters were set, so the status patch carries the Ready field if
      that changed and otherwise nothing: the matching clusters are never sent. */
  lemma StatusPatchIsReadyOnly(snapshot: Json, ready: bool)
    requires snapshot.Object? && Member(snapshot, "status").Object?
    ensures Diff(snapshot, SetStatus(snapshot, "ready", Bool(ready))) ==
            if Member(Member(snapshot, "status"), "ready") == Bool(ready) then Object(map[])
            else Only("status", Only("ready", Bool(ready)))
  {
    var st := Member(snapshot, "status");
    var next := With(st, "ready", Bool(ready));
    assert Member(next, "ready") == Bool(ready);
    if Member(st, "ready") == Bool(ready) {
      assert next.fields == st.fields;
      assert SetStatus(snapshot, "ready", Bool(ready)).fields == snapshot.fields;
      assert Diff(snapshot, snapshot).fields == map[];
    } else {
      DiffOneMember(st, "ready", Bool(ready));
      DiffOneMember(snapshot, "status", next);
    }
  }

  /** So on any server version the matching clusters are what they were, and Ready changes exactly if the pass
      changed it against its snapshot. */
  lemma StatusPatchEffect(snapshot: Json, server: Json, ready: bool)
    requires snapshot.Object? && Member(snapshot, "status").Object? && server.Object?
    ensures var changed := Member(Member(snapshot, "status"), "ready") != Bool(ready);
            Merge(server, Diff(snapshot, SetStatus(snapshot, "ready", Bool(ready)))) ==
            if changed then SetStatus(server, "ready", Bool(ready)) else server
    ensures var after := Merge(server, Diff(snapshot, SetStatus(snapshot, "ready", Bool(ready))));
            Member(Member(after, "status"), "matchingClusters") == Member(Member(server, "status"), "matchingClusters")
  {
    StatusPatchIsReadyOnly(snapshot, ready);
    if Member(Member(snapshot, "status"), "ready") == Bool(ready) {
      assert Merge(server, Object(map[])).fields == server.fields;
    } else {
      MergeOneMember(server, "status", Only("ready", Bool(ready)));
      MergeOneMember(Member(server, "status"), "ready", Bool(ready));
    }
  }

  /** Had the snapshot been taken before, the patch would carry the matching clusters whenever they changed. */
  lemma EarlierSnapshotWouldCarryThem(before: Json, clusters: Json, ready: bool)
    requires before.Object? && Member(before, "status").Object? && !clusters.Object? && !clusters.Null?
    ensures var after := SetStatus(SetStatus(before, "matchingClusters", clusters), "ready", Bool(ready));
            Member(Member(Diff(before, after), "status"), "matchingClusters") ==
            if Member(Member(before, "status"), "matchingClusters") == clusters then Null else clusters
  {
    var st := Member(before, "status");
    var after := SetStatus(SetStatus(before, "matchingClusters", clusters), "ready", Bool(ready));
    var st' := Member(after, "status");
    assert Member(st', "matchingClusters") == clusters;
    if st == st' {
      assert "status" !in Diff(before, after).fields;
    } else {
      assert Diff(before, after).fields["status"] == Diff(st, st');
    }
  }

  // ----- the patches as the addon pass uses them -----

  /** The annotation step of the pass is this patch applied to whatever cluster the server has. */
  lemma AnnotateIsMerge(w: Addon.World, snapshot: Cluster, others: map<string, Json>, others': map<string, Json>)
    requires !HasAnnotation(snapshot, INSTALLED) && snapshot.key in w.clusters
    ensures var k := snapshot.key;
            var after := Addon.AnnotateOn(w, k, Remote.Fine).world.clusters;
            var patch := Diff(ClusterJson(snapshot, others), ClusterJson(Annotated(snapshot), others));
            k in after && ClusterJson(after[k], others') == Merge(ClusterJson(w.clusters[k], others'), patch)
  {
    StaleAnnotationPatch(snapshot, others, w.clusters[snapshot.key], others');
  }

  /** The Ready field on the server after a pass that finished is what this patch makes of it. */
  lemma ReadyIsMerge(snapshot: Json, server: Json, seen: bool, ready: bool, list: seq<Cluster>)
    requires snapshot.Object? && Member(snapshot, "status").Object? && server.Object?
    requires Member(Member(snapshot, "status"), "ready") == Bool(seen)
    requires Member(Member(server, "status"), "ready") == Bool(ready)
    ensures var patch := Diff(snapshot, SetStatus(snapshot, "ready", Bool(Addon.ReadyValue(list))));
            Member(Member(Merge(server, patch), "status"), "ready") ==
            Bool(Addon.ReadyOnServer(ready, seen, list, Addon.Finished, Remote.Fine))
  {
    StatusPatchEffect(snapshot, server, Addon.ReadyValue(list));
  }
}
