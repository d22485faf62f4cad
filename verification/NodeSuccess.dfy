// What a success of a node RPC is worth: exactly when it is true of the mount
// table, over all runs of a set of requests.
module NodeSuccess {
  import opened Status
  import opened NodeSteps
  import opened NodeSafety

  // The requests that may mount this place, and those that may unmount it: a
  // publish cleans up its staging path when its mount fails.
  predicate MayMount(env: NodeEnv, req: NodeRequest, place: string) {
    Mounter(env, req) && Place(env, req) == place
  }

  predicate MayUnmount(env: NodeEnv, req: NodeRequest, place: string) {
    Acceptable(env.parse, req) &&
    if req.PublishRequest? then env.clean(req.stagingPath) == place else !Mounts(req) && Place(env, req) == place
  }

  ghost predicate ShareLocks(env: NodeEnv, reqs: set<NodeRequest>, place: string) {
    forall m, u | m in reqs && u in reqs && MayMount(env, m, place) && MayUnmount(env, u, place) ::
      LockKey(m) == LockKey(u)
  }

  // An RPC at this place that is about to answer with success tells the truth.
  predicate Truthful(env: NodeEnv, w: NodeWorld, rpc: NodeRpc, place: string) {
    Place(env, rpc.req) == place && rpc.pc == Unlock(Done) ==> (place in w.mounts <==> Mounts(rpc.req))
  }

  ghost predicate AllTruthful(env: NodeEnv, s: NodeSystem, place: string) {
    forall id | id in s.rpcs :: Truthful(env, s.w, s.rpcs[id], place)
  }

  ghost predicate AlwaysTruthful(env: NodeEnv, reqs: set<NodeRequest>, place: string) {
    forall s, events | Initial(s) && Draws(events, reqs) :: AllTruthful(env, Run(env, s, events), place)
  }

  // Sharing locks is enough

  ghost predicate Trustworthy(env: NodeEnv, s: NodeSystem, reqs: set<NodeRequest>, place: string) {
    && LocksExact(s) && AllTruthful(env, s, place)
    && forall id | id in s.rpcs :: s.rpcs[id].req in reqs && Fits(env.parse, s.rpcs[id])
  }

  lemma StepIsTruthful(env: NodeEnv, w: NodeWorld, rpc: NodeRpc, o: Outcome, place: string)
    requires Fits(env.parse, rpc) && Truthful(env, w, rpc, place)
    ensures var (w', rpc') := StepRpc(env, w, rpc, o);
            Truthful(env, w', rpc', place)
  {
    if rpc.pc.Mounting? {
      PlanTargets(env.parse, rpc.req);
    }
  }

  // The steps that mount or unmount a place belong to requests that may.
  lemma ChangersMay(env: NodeEnv, w: NodeWorld, rpc: NodeRpc, o: Outcome, place: string)
    requires Fits(env.parse, rpc)
    ensures var t, t' := w.mounts, StepRpc(env, w, rpc, o).0.mounts;
            && (place !in t && place in t' ==> MayMount(env, rpc.req, place) && InFlight(rpc))
            && (place in t && place !in t' ==> MayUnmount(env, rpc.req, place) && InFlight(rpc))
  {
    StepChangesTable(env, w, rpc, o);
  }

  lemma OthersStayTruthful(env: NodeEnv, s: NodeSystem, reqs: set<NodeRequest>, id: nat, o: Outcome, other: nat,
                           place: string)
    requires Trustworthy(env, s, reqs, place) && ShareLocks(env, reqs, place)
    requires id in s.rpcs && other in s.rpcs && other != id
    ensures Truthful(env, StepRpc(env, s.w, s.rpcs[id], o).0, s.rpcs[other], place)
  {
    var rpc, bystander := s.rpcs[id], s.rpcs[other];
    ChangersMay(env, s.w, rpc, o, place);
    if Place(env, bystander.req) == place && bystander.pc == Unlock(Done) && InFlight(rpc) {
      assert Fits(env.parse, bystander);
      assert MayMount(env, bystander.req, place) || MayUnmount(env, bystander.req, place);
      HoldersDiffer(s, id, other);
    }
  }

  lemma StepKeepsTrust(env: NodeEnv, s: NodeSystem, id: nat, o: Outcome, reqs: set<NodeRequest>, place: string)
    requires Trustworthy(env, s, reqs, place) && ShareLocks(env, reqs, place) && id in s.rpcs
    ensures Trustworthy(env, Apply(env, s, Step(id, o)), reqs, place)
  {
    hide StepRpc, Fits, Truthful, LocksExact, ShareLocks;
    var s' := Apply(env, s, Step(id, o));
    ApplyKeepsLocksExact(env, s, Step(id, o));
    StepChangesLocks(env, s.w, s.rpcs[id], o);
    forall other | other in s'.rpcs
      ensures s'.rpcs[other].req in reqs && Fits(env.parse, s'.rpcs[other])
              && Truthful(env, s'.w, s'.rpcs[other], place)
    {
      if other == id {
        StepFits(env, s.w, s.rpcs[id], o);
        StepIsTruthful(env, s.w, s.rpcs[id], o, place);
      } else {
        OthersStayTruthful(env, s, reqs, id, o, other, place);
      }
    }
  }

  lemma ApplyKeepsTrust(env: NodeEnv, s: NodeSystem, e: NodeEvent, reqs: set<NodeRequest>, place: string)
    requires Trustworthy(env, s, reqs, place) && ShareLocks(env, reqs, place) && (e.Start? ==> e.req in reqs)
    ensures Trustworthy(env, Apply(env, s, e), reqs, place)
  {
    hide StepRpc, LocksExact;
    if e.Step? && e.id in s.rpcs {
      StepKeepsTrust(env, s, e.id, e.o, reqs, place);
    } else {
      ApplyKeepsLocksExact(env, s, e);
    }
  }

  lemma {:induction false} TrustAlong(env: NodeEnv, s: NodeSystem, events: seq<NodeEvent>, reqs: set<NodeRequest>,
                                        place: string)
    requires Trustworthy(env, s, reqs, place) && ShareLocks(env, reqs, place) && Draws(events, reqs)
    ensures Trustworthy(env, Run(env, s, events), reqs, place)
    decreases events
  {
    if events != [] {
      ApplyKeepsTrust(env, s, events[0], reqs, place);
      TrustAlong(env, Apply(env, s, events[0]), events[1..], reqs, place);
    }
  }

  lemma SharedLocksKeepTruth(env: NodeEnv, s: NodeSystem, events: seq<NodeEvent>, reqs: set<NodeRequest>, place: string)
    requires Initial(s) && Draws(events, reqs) && ShareLocks(env, reqs, place)
    ensures AllTruthful(env, Run(env, s, events), place)
  {
    TrustAlong(env, s, events, reqs, place);
  }

  // And it is needed

  // The RPC u is one step away from unmounting the place.
  predicate AboutToUnmount(env: NodeEnv, rpc: NodeRpc, place: string) {
    || (rpc.pc.CleanUp? && !rpc.req.PublishRequest? && PathOf(rpc.req) != "" && Place(env, rpc.req) == place)
    || (rpc.pc.CleanUpStaging? && rpc.req.PublishRequest? && rpc.req.stagingPath != ""
       && env.clean(rpc.req.stagingPath) == place)
  }

  // From a state in which nothing is mounted an unmounter comes that far, under
  // its lock and without mounting anything: a publish does when its mount fails.
  lemma ComesToUnmount(env: NodeEnv, s: NodeSystem, id: nat, u: NodeRequest, place: string)
    returns (events: seq<NodeEvent>)
    requires MayUnmount(env, u, place) && id !in s.rpcs && LockKey(u) !in s.w.locks && s.w.mounts == map[]
    ensures Draws(events, {u})
    ensures var s' := Run(env, s, events);
            && s'.w == s.w.(locks := s.w.locks + {LockKey(u)})
            && id in s'.rpcs && s'.rpcs == s.rpcs[id := s'.rpcs[id]]
            && s'.rpcs[id].req == u && AboutToUnmount(env, s'.rpcs[id], place)
  {
    if u.PublishRequest? {
      var one := ComesToMount(env, s, id, u);
      var s1 := Run(env, s, one);
      var last := Step(id, Fails);
      FirstCallFits(env.parse, u);
      RunOne(env, s1, last);
      RunInTwo(env, s, one, [last]);
      events := one + [last];
      assert Run(env, s, events).rpcs == s.rpcs[id := Run(env, s, events).rpcs[id]];
    } else {
      var first, second := Start(id, u), Step(id, Succeeds);
      RunOne(env, s, first);
      var s1 := Apply(env, s, first);
      RunOne(env, s1, second);
      RunInTwo(env, s, [first], [second]);
      events := [first] + [second];
      assert Run(env, s, events).rpcs == s.rpcs[id := Run(env, s, events).rpcs[id]];
    }
  }

  lemma RunOne(env: NodeEnv, s: NodeSystem, e: NodeEvent)
    ensures Run(env, s, [e]) == Apply(env, s, e)
  {
    assert [e][1..] == [];
    assert Run(env, Apply(env, s, e), []) == Apply(env, s, e);
  }

  // A mounter under another lock mounts, and is told to have succeeded after the
  // place has been unmounted again.
  lemma SeparateLocksDeceive(env: NodeEnv, m: NodeRequest, u: NodeRequest, place: string)
    returns (s: NodeSystem, events: seq<NodeEvent>)
    requires MayMount(env, m, place) && MayUnmount(env, u, place) && LockKey(m) != LockKey(u)
    ensures Initial(s) && Draws(events, {m, u}) && !AllTruthful(env, Run(env, s, events), place)
  {
    s := NodeSystem(NodeWorld(map[], {}), map[]);
    var one := ComesToUnmount(env, s, 0, u, place);
    var s1 := Run(env, s, one);
    var two := ComesToMount(env, s1, 1, m);
    var s2 := Run(env, s1, two);
    var three := MountsThenLoses(env, s2, m, place);
    RunInTwo(env, s, one, two);
    RunInTwo(env, s, one + two, three);
    events := (one + two) + three;
  }

  lemma MountsThenLoses(env: NodeEnv, s: NodeSystem, m: NodeRequest, place: string) returns (events: seq<NodeEvent>)
    requires MayMount(env, m, place) && place !in s.w.mounts
    requires 0 in s.rpcs && AboutToUnmount(env, s.rpcs[0], place)
    requires 1 in s.rpcs && s.rpcs[1] == NodeRpc(m, FirstCall(env.parse, m), [])
    ensures Draws(events, {}) && !AllTruthful(env, Run(env, s, events), place)
  {
    hide Plan;
    var mount, unmount := Step(1, Succeeds), Step(0, Succeeds);
    FirstCallFits(env.parse, m);
    RunOne(env, s, mount);
    var s1 := Apply(env, s, mount);
    assert s1.rpcs[1].req == m && s1.rpcs[1].pc == Unlock(Done);
    RunOne(env, s1, unmount);
    RunInTwo(env, s, [mount], [unmount]);
    events := [mount] + [unmount];
    var s2 := Apply(env, s1, unmount);
    assert place !in s2.w.mounts && !Truthful(env, s2.w, s2.rpcs[1], place);
  }

  // In every run over a set of requests, each success at this place is true when
  // it is about to be returned (the place is mounted after staging or
  // publishing, and unmounted after unstaging or unpublishing), exactly when each
  // request that may mount the place shares its lock with each that may unmount it.
  lemma SuccessIsTrueIff(env: NodeEnv, reqs: set<NodeRequest>, place: string)
    ensures ShareLocks(env, reqs, place) <==> AlwaysTruthful(env, reqs, place)
  {
    if ShareLocks(env, reqs, place) {
      forall s, events | Initial(s) && Draws(events, reqs) ensures AllTruthful(env, Run(env, s, events), place) {
        SharedLocksKeepTruth(env, s, events, reqs, place);
      }
    } else {
      var m, u :| m in reqs && u in reqs && MayMount(env, m, place) && MayUnmount(env, u, place)
          && LockKey(m) != LockKey(u);
      var s, events := SeparateLocksDeceive(env, m, u, place);
      assert Draws(events, reqs);
    }
  }

  // So a success of staging is never safe from a publish of the volume under a
  // target path that is not the volume ID: if its mount fails, it unstages.
  lemma PublishesUnstage(env: NodeEnv, reqs: set<NodeRequest>, stage: NodeRequest, publish: NodeRequest)
    requires stage in reqs && publish in reqs && Mounter(env, stage) && Mounter(env, publish)
    requires stage.StageRequest? && publish.PublishRequest? && publish.stagingPath == stage.stagingPath
    requires publish.targetPath != stage.volumeID
    ensures !AlwaysTruthful(env, reqs, Place(env, stage))
  {
    SuccessIsTrueIff(env, reqs, Place(env, stage));
    assert MayMount(env, stage, Place(env, stage)) && MayUnmount(env, publish, Place(env, stage));
  }

  // A publish whose mount fails cleans up the staging path without holding the
  // lock of the volume: whoever staged it finds it unmounted.
  lemma FailedPublishUnstages(env: NodeEnv, w: NodeWorld, req: NodeRequest, steps: nat)
    requires Mounter(env, req) && req.PublishRequest? && steps >= 3
    ensures var rpc := NodeRpc(req, FirstCall(env.parse, req), []);
            var (w', rpc') := Alone(env, w, rpc, [Fails], steps);
            && rpc'.pc == Returned(Error(Internal))
            && w'.mounts == w.mounts - {env.clean(req.stagingPath)}
  {
    var first := NodeRpc(req, FirstCall(env.parse, req), []);
    var tried := [Attempt(PublishCall(req), false)];
    var second := NodeRpc(req, CleanUpStaging, tried);
    var third := NodeRpc(req, Unlock(Error(Internal)), tried);
    var w2 := w.(mounts := w.mounts - {env.clean(req.stagingPath)});
    assert Later([Fails]) == [] && [] + tried == tried;
    assert StepRpc(env, w, first, Fails) == (w, second);
    assert Alone(env, w, first, [Fails], steps) == Alone(env, w, second, [], steps - 1);
    assert StepRpc(env, w, second, Succeeds) == (w2, third);
    assert Alone(env, w, second, [], steps - 1) == Alone(env, w2, third, [], steps - 2);
    assert Alone(env, w2, third, [], steps - 2).1.pc == Returned(Error(Internal));
  }
}
