// The mount tables that the node RPCs build: targets over staging paths over
// NFS servers, whatever the interleaving and the failures.
module MountLayers {
  import opened MountTargets
  import opened MountTable
  import opened NodeSteps
  import opened NodeSafety

  datatype Layers = Layers(servers: set<string>, stagings: set<string>, targets: set<string>)

  predicate Apart(l: Layers) {
    l.servers !! l.stagings && l.servers !! l.targets && l.stagings !! l.targets
  }

  predicate Layered(t: Table, l: Layers) {
    forall path | path in t ::
      || (path in l.stagings && t[path].source in l.servers)
      || (path in l.targets && t[path].source in l.stagings)
  }

  // A request whose paths are clean and lie in the layers
  predicate Orderly(env: NodeEnv, req: NodeRequest, l: Layers) {
    Mounter(env, req) ==>
      && Place(env, req) == PathOf(req) && req.stagingPath in l.stagings
      && (req.PublishRequest? ==> req.targetPath in l.targets)
      && (req.StageRequest? ==> NodeTargets(env.parse, req.context).0 in l.servers)
  }

  // A layered table is acyclic, and a path leads through at most two mounts.
  lemma LayeredRoots(t: Table, l: Layers)
    requires Apart(l) && Layered(t, l)
    ensures Acyclic(t)
    ensures forall path | path in t && path in l.stagings :: RootOf(t, path) == t[path].source
    ensures forall path | path in t && path in l.targets :: RootOf(t, path) == RootOf(t, t[path].source)
    ensures forall path | path in t :: RootOf(t, path) in l.servers + l.stagings
  {
    forall path
      ensures Ends(t, path)
      ensures path in t && path in l.stagings ==> RootOf(t, path) == t[path].source
      ensures path in t && path in l.targets ==> RootOf(t, path) == RootOf(t, t[path].source)
      ensures path in t ==> RootOf(t, path) in l.servers + l.stagings
    {
      PathRoot(t, l, path);
    }
  }

  lemma PathRoot(t: Table, l: Layers, path: string)
    requires Apart(l) && Layered(t, l)
    ensures Ends(t, path)
    ensures path in t && path in l.stagings ==> RootOf(t, path) == t[path].source
    ensures path in t && path in l.targets ==> RootOf(t, path) == RootOf(t, t[path].source)
    ensures path in t ==> RootOf(t, path) in l.servers + l.stagings
  {
    if path !in t {
      assert Follow(t, path, 0) !in t;
    } else {
      var next := t[path].source;
      assert Follow(t, path, 1) == Follow(t, next, 0) == next;
      if next !in t {
        RootIsEnd(t, path, 1);
        RootOfUnmounted(t, next);
      } else {
        var last := t[next].source;
        assert Follow(t, path, 2) == Follow(t, next, 1) == Follow(t, last, 0) == last;
        RootIsEnd(t, path, 2);
        RootIsEnd(t, next, 1);
      }
    }
  }

  lemma StepKeepsLayered(env: NodeEnv, w: NodeWorld, rpc: NodeRpc, o: Outcome, l: Layers)
    requires Fits(env.parse, rpc) && Orderly(env, rpc.req, l) && Layered(w.mounts, l)
    ensures Layered(StepRpc(env, w, rpc, o).0.mounts, l)
  {
    StepChangesTable(env, w, rpc, o);
    if rpc.pc.Mounting? {
      assert rpc.pc.call == Plan(env.parse, rpc.req)[|rpc.tried|];
    }
  }

  lemma {:induction false} LayeredAlong(env: NodeEnv, s: NodeSystem, events: seq<NodeEvent>, reqs: set<NodeRequest>,
                                        l: Layers)
    requires forall id | id in s.rpcs :: Fits(env.parse, s.rpcs[id]) && s.rpcs[id].req in reqs
    requires Layered(s.w.mounts, l) && Draws(events, reqs)
    requires forall req | req in reqs :: Orderly(env, req, l)
    ensures Layered(Run(env, s, events).w.mounts, l)
    decreases events
  {
    if events != [] {
      var e := events[0];
      if e.Step? && e.id in s.rpcs {
        StepFits(env, s.w, s.rpcs[e.id], e.o);
        StepKeepsLayered(env, s.w, s.rpcs[e.id], e.o, l);
      }
      LayeredAlong(env, Apply(env, s, e), events[1..], reqs, l);
    }
  }

  // In every run from a layered table, with orderly requests: the table stays
  // acyclic, and a mounted target leads where its staging path leads, which is an
  // NFS server exactly as long as that path is still mounted.
  lemma TargetsLeadToServers(env: NodeEnv, s: NodeSystem, events: seq<NodeEvent>, reqs: set<NodeRequest>, l: Layers)
    requires Initial(s) && Layered(s.w.mounts, l) && Draws(events, reqs)
    requires Apart(l) && forall req | req in reqs :: Orderly(env, req, l)
    ensures var t := Run(env, s, events).w.mounts;
            && Acyclic(t)
            && forall path | path in t && path in l.targets ::
                 && RootOf(t, path) == RootOf(t, t[path].source)
                 && (RootOf(t, path) in l.servers <==> t[path].source in t)
  {
    LayeredAlong(env, s, events, reqs, l);
    var t := Run(env, s, events).w.mounts;
    LayeredRoots(t, l);
    forall path | path in t && path in l.targets
      ensures RootOf(t, path) in l.servers <==> t[path].source in t
    {
      if t[path].source !in t {
        RootOfUnmounted(t, t[path].source);
      }
    }
  }
}
