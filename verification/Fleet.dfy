/** The API servers as mutable state: one management cluster, and a remote client for each workload cluster. */
module Fleets {
  import opened Api
  import opened Remote
  import opened Labels
  import Addon = AddonPass
  import Policies = PolicyPass

  /** The API server of one workload cluster. */
  class WorkloadCluster {
    var objects: Store

    constructor (objects: Store)
      ensures this.objects == objects
    {
      this.objects := objects;
    }
  }

  /** The management cluster's API server, and the workload clusters that can be reached. Only the status fields
      that the reconcilers write are kept for addons and policies. */
  class Fleet {
    const servers: map<ClusterKey, WorkloadCluster>
    var clusters: map<ClusterKey, Cluster>
    var addonReady: map<Request, bool>
    var policyStatus: map<Request, Policies.Status>

    constructor (servers: map<ClusterKey, WorkloadCluster>, clusters: map<ClusterKey, Cluster>)
      ensures this.servers == servers && this.clusters == clusters
      ensures addonReady == map[] && policyStatus == map[]
    {
      this.servers, this.clusters := servers, clusters;
      addonReady, policyStatus := map[], map[];
    }

    /** Each workload cluster is a server of its own. */
    ghost predicate Valid() {
      forall j, k :: j in servers && k in servers && j != k ==> servers[j] != servers[k]
    }

    ghost function Stores(): map<ClusterKey, Store>
      reads servers.Values
    {
      map k | k in servers :: servers[k].objects
    }

    ghost function World(): Addon.World
      reads this, servers.Values
    {
      Addon.World(clusters, Stores())
    }

    /** If of all servers only the one of cluster `k` was touched, the stores differ in that one at most. */
    twostate lemma OnlyServer(k: ClusterKey)
      requires Valid() && k in servers
      requires forall j :: j in servers && j != k ==> unchanged(servers[j])
      ensures Stores() == old(Stores())[k := servers[k].objects]
    {
    }

    /** The merge patch that annotates a cluster. */
    method Annotate(k: ClusterKey, f: Fault) returns (ok: bool)
      modifies this`clusters
      ensures World() == Addon.AnnotateOn(old(World()), k, f).world
      ensures ok <==> Addon.AnnotateOn(old(World()), k, f).end == Addon.Finished
    {
      ok := f == Fine && k in clusters;
      if f != Refused && k in clusters {
        clusters := clusters[k := Annotated(clusters[k])];
      }
    }

    /** The status patch of an addon whose Ready field was `snapshot` when read and is `ready` now. */
    method PatchAddonReady(o: Request, snapshot: bool, ready: bool, f: Fault)
      modifies this`addonReady
      ensures addonReady ==
        if o in old(addonReady) && f != Refused && ready != snapshot then old(addonReady)[o := ready]
        else old(addonReady)
    {
      if o in addonReady && f != Refused && ready != snapshot {
        addonReady := addonReady[o := ready];
      }
    }

    /** The status update of a policy replaces the whole status. */
    method UpdatePolicyStatus(o: Request, status: Policies.Status, f: Fault) returns (ok: bool)
      modifies this`policyStatus
      ensures policyStatus == if f == Refused then old(policyStatus) else old(policyStatus)[o := status]
      ensures ok <==> f == Fine
    {
      ok := f == Fine;
      if f != Refused {
        policyStatus := policyStatus[o := status];
      }
    }
  }

  /** What a reconciler tells the work queue. */
  datatype Reconciled = Error | RequeueAfter(seconds: nat) | Settled

  const REQUEUE_SECONDS: nat := 60

  datatype Reply = Done | AlreadyExists | NotFound | Failed

  /** A client for one workload cluster. The environment's fault for call number n is faults(n). */
  class RemoteClient {
    const server: WorkloadCluster
    const faults: Faults
    var calls: nat

    /** Connecting was call number 0. */
    constructor (server: WorkloadCluster, faults: Faults)
      ensures this.server == server && this.faults == faults && calls == 1
    {
      this.server, this.faults, calls := server, faults, 1;
    }

    /** A download or a rendering between the calls, numbered with them. */
    method Fetch() returns (ok: bool)
      modifies this`calls
      ensures calls == old(calls) + 1
      ensures ok <==> faults(old(calls)) == Fine
    {
      ok := faults(calls) == Fine;
      calls := calls + 1;
    }

    method Create(k: ObjKey, o: Obj) returns (r: Reply)
      modifies this`calls, server
      ensures calls == old(calls) + 1
      ensures server.objects ==
        if faults(old(calls)) == Refused then old(server.objects) else Created(old(server.objects), k, o)
      ensures r == if faults(old(calls)) != Fine then Failed
                   else if k in old(server.objects) then AlreadyExists else Done
    {
      var f := faults(calls);
      calls := calls + 1;
      r := if f != Fine then Failed else if k in server.objects then AlreadyExists else Done;
      if f != Refused && k !in server.objects {
        server.objects := server.objects[k := o];
      }
    }

    /** The patch that sets the control-plane toleration. */
    method Tolerate(k: ObjKey) returns (r: Reply)
      modifies this`calls, server
      ensures calls == old(calls) + 1
      ensures server.objects ==
        if faults(old(calls)) == Refused then old(server.objects) else Tolerated(old(server.objects), k)
      ensures r == if faults(old(calls)) != Fine then Failed
                   else if k in old(server.objects) then Done else NotFound
    {
      var f := faults(calls);
      calls := calls + 1;
      r := if f != Fine then Failed else if k in server.objects then Done else NotFound;
      if f != Refused && k in server.objects {
        server.objects := server.objects[k := server.objects[k].(tolerations := TOLERATED)];
      }
    }

    method Get(k: ObjKey) returns (r: Reply, o: Option<Obj>)
      modifies this`calls
      ensures calls == old(calls) + 1
      ensures r == if faults(old(calls)) != Fine then Failed
                   else if k in server.objects then Done else NotFound
      ensures o == if r == Done then Some(server.objects[k]) else None
    {
      var f := faults(calls);
      calls := calls + 1;
      r := if f != Fine then Failed else if k in server.objects then Done else NotFound;
      o := if r == Done then Some(server.objects[k]) else None;
    }

    /** An update leaves the status alone: that is not the caller's to write. */
    method Update(k: ObjKey, o: Obj) returns (r: Reply)
      modifies this`calls, server
      ensures calls == old(calls) + 1
      ensures server.objects ==
        if faults(old(calls)) == Refused || k !in old(server.objects) then old(server.objects)
        else old(server.objects)[k := o.(active := old(server.objects)[k].active)]
      ensures r == if faults(old(calls)) != Fine then Failed
                   else if k in old(server.objects) then Done else NotFound
    {
      var f := faults(calls);
      calls := calls + 1;
      r := if f != Fine then Failed else if k in server.objects then Done else NotFound;
      if f != Refused && k in server.objects {
        server.objects := server.objects[k := o.(active := server.objects[k].active)];
      }
    }

    method Delete(k: ObjKey) returns (r: Reply)
      modifies this`calls, server
      ensures calls == old(calls) + 1
      ensures server.objects == if faults(old(calls)) == Refused then old(server.objects) else old(server.objects) - {k}
      ensures r == if faults(old(calls)) != Fine then Failed
                   else if k in old(server.objects) then Done else NotFound
    {
      var f := faults(calls);
      calls := calls + 1;
      r := if f != Fine then Failed else if k in server.objects then Done else NotFound;
      if f != Refused {
        server.objects := server.objects - {k};
      }
    }
  }
}
