// Reconciling the squash policy of a filesystem: one uninterrupted pass of
// setInitialSquashPolicy, over any faults of the network.
module SquashReconciliation {
  import opened Wrappers
  import opened NfsModel
  import opened LinodeContract
  import opened Transport
  import opened AccessPolicies
  import opened ControllerSteps

  // The request asks for a squash policy, and f exists.
  predicate Reconciles(b: Backend, req: Request, f: Filesystem, squash: SquashPolicy) {
    && req.CreateRequest? && req.parameters.Some? && req.parameters.value.squash == Some(squash)
    && Exists(b, f.spaceID, f.id)
  }

  function Settled(policy: Policy): Policy {
    policy.(status := PolicyActive)
  }

  // Up to its status, the policy is the one before or the goal.
  predicate Between(p: Policy, goal: Policy, q: Policy) {
    q.(status := p.status) == p || q.(status := goal.status) == goal
  }

  predicate Succeeded(pc: Pc, f: Filesystem, mtlsMode: string) {
    pc == Returned(VolumeCreated(CsiVolume(f, mtlsMode)))
  }

  // What the rest of the pass may come to: it returns, it changes nothing but
  // this policy, and success means that the policy is the active goal.
  ghost predicate Reconciled(env: Env, w: World, req: Request, pc: Pc, net: seq<Delivery>, steps: nat,
                             f: Filesystem, mtlsMode: string, p: Policy, goal: Policy)
    requires Valid(w.b)
  {
    var (w', pc') := Alone(env, w, req, pc, net, steps);
    && f.id in w'.b.policies && w' == WithPolicy(w, f.id, w'.b.policies[f.id])
    && Between(p, goal, w'.b.policies[f.id])
    && pc'.Returned? && (Succeeded(pc', f, mtlsMode) || pc'.response.Error?)
    && (Succeeded(pc', f, mtlsMode) ==> w'.b.policies[f.id] == Settled(goal))
    && (net == [] ==> Succeeded(pc', f, mtlsMode))
  }

  lemma AwaitReconciles(env: Env, w: World, req: Request, f: Filesystem, mtlsMode: string, net: seq<Delivery>,
                        steps: nat,
                        squash: SquashPolicy, p: Policy, goal: Policy)
    requires Valid(w.b) && Reconciles(w.b, req, f, squash) && steps >= 1
    requires Settled(w.b.policies[f.id]) == Settled(goal)
    ensures Reconciled(env, w, req, Provisioning(AwaitSquash(f, mtlsMode)), net, steps, f, mtlsMode, p, goal)
  {
    hide IndexOk, QuotasOk, Alone;
    var pc := Provisioning(AwaitSquash(f, mtlsMode));
    AloneStep(env, w, req, pc, net, steps);
    var (w1, pc1) := StepRpc(env, w, req, pc, Next(net));
    AloneDone(env, w1, req, pc1, Later(net), steps - 1);
    assert WithPolicy(w, f.id, w.b.policies[f.id]) == w;
  }

  // A delivered write is accepted and sets the goal.
  lemma WriteSetsGoal(b: Backend, f: Filesystem, mode: AccessPolicyMode, squash: SquashPolicy, update: PolicyUpdate)
    requires Valid(b) && Exists(b, f.spaceID, f.id)
    requires SquashUpdate(mode, b.policies[f.id], squash) == Some(update)
    ensures var (b', reply) := UpdatePolicy(b, f.spaceID, f.id, update);
            && reply.Success? && Valid(b')
            && b' == b.(policies := b.policies[f.id := SquashGoal(mode, b.policies[f.id], squash).(status := Updating)])
  {
    SquashReachesGoal(mode, b.policies[f.id], squash);
    SquashUpdateIsAccepted(b, mode, b.policies[f.id], squash);
    UpdatePolicyKeepsValid(b, f.spaceID, f.id, update);
  }

  lemma WriteSteps(env: Env, w: World, req: Request, f: Filesystem, mtlsMode: string, update: PolicyUpdate,
                   d: Delivery, squash: SquashPolicy)
    requires Valid(w.b) && Reconciles(w.b, req, f, squash)
    requires SquashUpdate(env.mode, w.b.policies[f.id], squash) == Some(update)
    ensures var goal := SquashGoal(env.mode, w.b.policies[f.id], squash);
            var (w1, pc1) := StepRpc(env, w, req, Provisioning(WriteSquash(f, mtlsMode, update)), d);
            && w1 == (if d.RequestLost? then w else WithPolicy(w, f.id, goal.(status := Updating)))
            && if d.Delivered? then pc1 == Provisioning(AwaitSquash(f, mtlsMode))
               else pc1.Returned? && pc1.response.Error?
  {
    hide IndexOk, QuotasOk, SquashUpdate;
    WriteSetsGoal(w.b, f, env.mode, squash, update);
  }

  lemma WriteReconciles(env: Env, w: World, req: Request, f: Filesystem, mtlsMode: string, update: PolicyUpdate,
                        net: seq<Delivery>, steps: nat, squash: SquashPolicy)
    requires Valid(w.b) && Reconciles(w.b, req, f, squash) && steps >= 2
    requires SquashUpdate(env.mode, w.b.policies[f.id], squash) == Some(update)
    ensures var p := w.b.policies[f.id];
            Reconciled(env, w, req, Provisioning(WriteSquash(f, mtlsMode, update)), net, steps,
                       f, mtlsMode, p, SquashGoal(env.mode, p, squash))
  {
    hide IndexOk, QuotasOk, Alone, StepRpc, SquashUpdate;
    var p := w.b.policies[f.id];
    var goal := SquashGoal(env.mode, p, squash);
    assert WithPolicy(w, f.id, p) == w;
    var pc := Provisioning(WriteSquash(f, mtlsMode, update));
    AloneStep(env, w, req, pc, net, steps);
    WriteSteps(env, w, req, f, mtlsMode, update, Next(net), squash);
    var (w1, pc1) := StepRpc(env, w, req, pc, Next(net));
    if Next(net).Delivered? {
      AwaitReconciles(env, w1, req, f, mtlsMode, Later(net), steps - 1, squash, p, goal);
    } else {
      AloneDone(env, w1, req, pc1, Later(net), steps - 1);
    }
  }

  // One pass over any faults changes nothing but this policy, which ends as it
  // was or as the goal, up to its status; if the pass succeeds, the policy is
  // the goal and active. Without faults it succeeds.
  lemma PassReachesGoal(env: Env, w: World, req: Request, f: Filesystem, mtlsMode: string,
                        net: seq<Delivery>, steps: nat, squash: SquashPolicy)
    requires Valid(w.b) && Reconciles(w.b, req, f, squash) && steps >= 3
    ensures var p := w.b.policies[f.id];
            Reconciled(env, w, req, Provisioning(ReadSquash(f, mtlsMode)), net, steps,
                       f, mtlsMode, p, SquashGoal(env.mode, p, squash))
  {
    hide IndexOk, QuotasOk, Alone;
    var p := w.b.policies[f.id];
    var goal := SquashGoal(env.mode, p, squash);
    SquashReachesGoal(env.mode, p, squash);
    assert WithPolicy(w, f.id, p) == w;
    var pc := Provisioning(ReadSquash(f, mtlsMode));
    AloneStep(env, w, req, pc, net, steps);
    if !Next(net).Delivered? {
      AloneDone(env, w, req, StepRpc(env, w, req, pc, Next(net)).1, Later(net), steps - 1);
    } else {
      match SquashUpdate(env.mode, p, squash)
      case Some(update) => WriteReconciles(env, w, req, f, mtlsMode, update, Later(net), steps - 1, squash);
      case None => AwaitReconciles(env, w, req, f, mtlsMode, Later(net), steps - 1, squash, p, goal);
    }
  }

  ghost predicate WritesNext(env: Env, w: World, req: Request, f: Filesystem, mtlsMode: string)
    requires Valid(w.b)
  {
    var pc' := StepRpc(env, w, req, Provisioning(ReadSquash(f, mtlsMode)), Delivered).1;
    pc'.Provisioning? && pc'.step.WriteSquash?
  }

  // What success means in each mode: in space mode the policy is enabled with an
  // empty list, in node mode it keeps its state and its non-zero IDs in order.
  lemma SuccessByMode(env: Env, w: World, req: Request, f: Filesystem, mtlsMode: string,
                      net: seq<Delivery>, steps: nat, squash: SquashPolicy)
    requires Valid(w.b) && Reconciles(w.b, req, f, squash) && steps >= 3
    ensures var p := w.b.policies[f.id];
            var (w', pc') := Alone(env, w, req, Provisioning(ReadSquash(f, mtlsMode)), net, steps);
            Succeeded(pc', f, mtlsMode) ==>
              && f.id in w'.b.policies
              && var q := w'.b.policies[f.id];
                 && q.status == PolicyActive && q.squash == squash
                 && q.nfsLabel == p.nfsLabel && q.protocols == p.protocols
                 && match env.mode
                    case SpaceMode => q.enabled && q.acl == []
                    case NodeMode => q.enabled == p.enabled && q.acl == NonZero(p.acl)
  {
    PassReachesGoal(env, w, req, f, mtlsMode, net, steps, squash);
  }

  // A pass that reads the policy goes on to write exactly when it is not the goal.
  lemma WritesIffNotGoal(env: Env, w: World, req: Request, f: Filesystem, mtlsMode: string, squash: SquashPolicy)
    requires Valid(w.b) && Reconciles(w.b, req, f, squash)
    ensures var p := w.b.policies[f.id];
            WritesNext(env, w, req, f, mtlsMode) <==> p != SquashGoal(env.mode, p, squash)
  {
    SquashReachesGoal(env.mode, w.b.policies[f.id], squash);
  }

  // However the first pass was cut, an undisturbed second pass succeeds with the
  // goal of the first. After a successful first pass it writes nothing and
  // leaves the world as it is.
  lemma RetryReachesSameGoal(env: Env, w: World, req: Request, f: Filesystem, mtlsMode: string,
                             net: seq<Delivery>, steps: nat, squash: SquashPolicy)
    requires Valid(w.b) && Reconciles(w.b, req, f, squash) && steps >= 3
    ensures var pc := Provisioning(ReadSquash(f, mtlsMode));
            var (w1, pc1) := Alone(env, w, req, pc, net, steps);
            && Valid(w1.b)
            && var (w2, pc2) := Alone(env, w1, req, pc, [], steps);
               && w2 == WithPolicy(w, f.id, Settled(SquashGoal(env.mode, w.b.policies[f.id], squash)))
               && Succeeded(pc2, f, mtlsMode)
               && (Succeeded(pc1, f, mtlsMode) ==> w2 == w1 && !WritesNext(env, w1, req, f, mtlsMode))
  {
    var p, pc := w.b.policies[f.id], Provisioning(ReadSquash(f, mtlsMode));
    PassReachesGoal(env, w, req, f, mtlsMode, net, steps, squash);
    AloneKeepsValid(env, w, req, pc, net, steps);
    var w1 := Alone(env, w, req, pc, net, steps).0;
    SecondPass(env, w, w1, req, f, mtlsMode, steps, squash);
  }

  lemma SecondPass(env: Env, w: World, w1: World, req: Request, f: Filesystem, mtlsMode: string, steps: nat,
                   squash: SquashPolicy)
    requires Valid(w.b) && Reconciles(w.b, req, f, squash) && steps >= 3
    requires Valid(w1.b) && f.id in w1.b.policies && w1 == WithPolicy(w, f.id, w1.b.policies[f.id])
    requires Between(w.b.policies[f.id], SquashGoal(env.mode, w.b.policies[f.id], squash), w1.b.policies[f.id])
    ensures var goal := Settled(SquashGoal(env.mode, w.b.policies[f.id], squash));
            var (w2, pc2) := Alone(env, w1, req, Provisioning(ReadSquash(f, mtlsMode)), [], steps);
            && w2 == WithPolicy(w, f.id, goal) && Succeeded(pc2, f, mtlsMode)
            && (w1.b.policies[f.id] == goal ==> w2 == w1 && !WritesNext(env, w1, req, f, mtlsMode))
  {
    hide IndexOk, QuotasOk;
    PassReachesGoal(env, w1, req, f, mtlsMode, [], steps, squash);
    WritesIffNotGoal(env, w1, req, f, mtlsMode, squash);
    SameGoal(env.mode, w.b.policies[f.id], w1.b.policies[f.id], squash);
  }

  lemma SameGoal(mode: AccessPolicyMode, p: Policy, q: Policy, squash: SquashPolicy)
    requires Between(p, SquashGoal(mode, p, squash), q)
    ensures Settled(SquashGoal(mode, q, squash)) == Settled(SquashGoal(mode, p, squash))
    ensures q == Settled(SquashGoal(mode, p, squash)) ==> q == SquashGoal(mode, q, squash)
  {
    var goal := SquashGoal(mode, p, squash);
    GoalIsStable(mode, p, squash, q.status);
    GoalIsStable(mode, goal, squash, q.status);
    assert q == p.(status := q.status) || q == goal.(status := q.status);
  }
}
