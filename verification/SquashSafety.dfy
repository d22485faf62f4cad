// The squash policy of one filesystem over all runs.
module SquashSafety {
  import opened Wrappers
  import opened Handles
  import opened NfsModel
  import opened LinodeContract
  import opened Transport
  import opened AccessPolicies
  import opened ControllerSteps
  import opened VolumeFrames
  import opened Ownership
  import opened PolicyKnowledge
  import opened PolicySafety

  function SquashOf(req: Request): Option<SquashPolicy> {
    if req.CreateRequest? && req.parameters.Some? then req.parameters.value.squash else None
  }

  // There is a space that both references name.
  predicate SpacesMeet(a: SpaceReference, b: SpaceReference) {
    a.SpaceByLabel? && b.SpaceByLabel? ==> a.title == "" || b.title == "" || a.title == b.title
  }

  // Both requests may come to reconcile the policy of h, in one run.
  predicate Meet(r: Request, q: Request, h: Handle, title: string) {
    && Rewrites(r, h, title) && Rewrites(q, h, title)
    && TagList(r.parameters.value) == TagList(q.parameters.value)
    && SpacesMeet(r.parameters.value.space, q.parameters.value.space)
  }

  // Those who may come to rewrite the squash policy of h want the same one, and
  // then nobody operates on its nodes.
  ghost predicate SquashesAgree(reqs: set<Request>, h: Handle, title: string) {
    && RewritesAreAlone(reqs, h, title)
    && forall r, q | r in reqs && q in reqs && Meet(r, q, h, title) :: SquashOf(r) == SquashOf(q)
  }

  // What the RPCs hold about the policy p that the run began with

  // Up to its status, q is p or the goal of p for some squash policy.
  predicate Descends(mode: AccessPolicyMode, p: Policy, q: Policy) {
    q.(status := p.status) == p || q.(status := p.status) == SquashGoal(mode, p, q.squash)
  }

  predicate AtGoal(mode: AccessPolicyMode, p: Policy, q: Policy, squash: Option<SquashPolicy>) {
    squash.Some? && q.(status := p.status) == SquashGoal(mode, p, squash.value)
  }

  function GoalUpdate(mode: AccessPolicyMode, p: Policy, squash: SquashPolicy): PolicyUpdate {
    var goal := SquashGoal(mode, p, squash);
    PolicyUpdateFor(goal, goal.enabled, goal.acl)
  }

  // A pending update is the one that leads to the goal of its request; once it is
  // written, or was not needed, the policy is at this goal.
  predicate Pursues(env: Env, p: Policy, b: Backend, h: Handle, rpc: Rpc)
    requires b.policies.Keys == b.filesystems.Keys
  {
    match rpc.pc
    case Provisioning(WriteSquash(f, _, update)) =>
      HandleOf(f) == h && Live(b, h) ==>
        SquashOf(rpc.req).Some? && update == GoalUpdate(env.mode, p, SquashOf(rpc.req).value)
    case Provisioning(AwaitSquash(f, _)) =>
      HandleOf(f) == h && Live(b, h) ==> AtGoal(env.mode, p, b.policies[h.filesystemID], SquashOf(rpc.req))
    case _ => true
  }

  ghost predicate Rewritten(reqs: set<Request>, h: Handle, title: string) {
    exists r :: r in reqs && Rewrites(r, h, title)
  }

  ghost predicate AllPursue(env: Env, p: Policy, s: System, reqs: set<Request>, h: Handle, title: string)
    requires Valid(s.w.b)
  {
    && Consistent(s, reqs, h)
    && (Rewritten(reqs, h, title) ==> Descends(env.mode, p, PolicyAt(s.w.b, h, title)))
    && forall id | id in s.rpcs :: Pursues(env, p, s.w.b, h, s.rpcs[id])
  }

  // One policy

  lemma GoalOfDescendant(mode: AccessPolicyMode, p: Policy, q: Policy, squash: SquashPolicy)
    requires Descends(mode, p, q)
    ensures SquashGoal(mode, q, squash).(status := p.status) == SquashGoal(mode, p, squash)
    ensures match SquashUpdate(mode, q, squash)
            case None => AtGoal(mode, p, q, Some(squash))
            case Some(update) => update == GoalUpdate(mode, p, squash)
  {
    NonZeroIsFilter(p.acl);
    NonZeroKeepsAll(NonZero(p.acl));
    SquashReachesGoal(mode, q, squash);
  }

  lemma RevisedToGoal(mode: AccessPolicyMode, p: Policy, q: Policy, squash: SquashPolicy)
    requires Descends(mode, p, q)
    ensures AtGoal(mode, p, Revised(q, GoalUpdate(mode, p, squash)), Some(squash))
  {
  }

  // The steps of the RPC itself

  lemma ReadSquashPursues(env: Env, p: Policy, b: Backend, req: Request, f: Filesystem, mtlsMode: string, d: Delivery,
                          h: Handle)
    requires Valid(b) && req.CreateRequest? && req.parameters.Some?
    requires HandleOf(f) == h && Live(b, h) ==> Descends(env.mode, p, b.policies[h.filesystemID])
    ensures var next := SquashStep(env, b, req.parameters.value, ReadSquash(f, mtlsMode), d).1;
            Pursues(env, p, b, h, Rpc(req, next))
  {
    hide IndexOk, QuotasOk, SquashUpdate, GoalUpdate, AtGoal, Descends;
    if HandleOf(f) == h && Live(b, h) && req.parameters.value.squash.Some? {
      GoalOfDescendant(env.mode, p, b.policies[h.filesystemID], req.parameters.value.squash.value);
    }
  }

  lemma WriteSquashPursues(env: Env, p: Policy, b: Backend, req: Request, f: Filesystem, mtlsMode: string,
                           update: PolicyUpdate, d: Delivery, h: Handle)
    requires Valid(b) && req.CreateRequest? && req.parameters.Some?
    requires Pursues(env, p, b, h, Rpc(req, Provisioning(WriteSquash(f, mtlsMode, update))))
    requires HandleOf(f) == h && Live(b, h) ==> Descends(env.mode, p, b.policies[h.filesystemID])
    ensures var (b', next) := SquashStep(env, b, req.parameters.value, WriteSquash(f, mtlsMode, update), d);
            Valid(b') && Pursues(env, p, b', h, Rpc(req, next))
  {
    hide IndexOk, QuotasOk, GoalUpdate, AtGoal, Descends, Revised;
    UpdatePolicyFrame(b, HandleOf(f), update, h);
    if HandleOf(f) == h && Live(b, h) {
      RevisedToGoal(env.mode, p, b.policies[h.filesystemID], SquashOf(req).value);
    }
  }

  lemma StepPursues(env: Env, p: Policy, w: World, rpc: Rpc, d: Delivery, h: Handle)
    requires Valid(w.b) && Placed(w.b, h, rpc) && Pursues(env, p, w.b, h, rpc)
    requires Squashes(rpc.pc, h) && Live(w.b, h) ==> Descends(env.mode, p, w.b.policies[h.filesystemID])
    ensures var (w', pc') := StepRpc(env, w, rpc.req, rpc.pc, d);
            Valid(w'.b) && Pursues(env, p, w'.b, h, Rpc(rpc.req, pc'))
  {
    hide IndexOk, QuotasOk, StepRpc, GoalUpdate, AtGoal, Descends, CsiVolume, SquashUpdate, Owns;
    StepKeepsValid(env, w, rpc.req, rpc.pc, d);
    if Squashing(rpc.pc) {
      StepsOfSquash(env, w, rpc, d, h);
      match rpc.pc.step
      case ReadSquash(f, mtlsMode) => ReadSquashPursues(env, p, w.b, rpc.req, f, mtlsMode, d, h);
      case WriteSquash(f, mtlsMode, update) => WriteSquashPursues(env, p, w.b, rpc.req, f, mtlsMode, update, d, h);
      case _ =>
    } else {
      StepsBeforeSquash(env, w, rpc, d, h);
    }
  }

  // The steps of others

  lemma PursuesKept(env: Env, p: Policy, b: Backend, b': Backend, h: Handle, rpc: Rpc, capacity: bool)
    requires Valid(b) && Valid(b') && Framed(b, b', h, false, capacity)
    requires Pursues(env, p, b, h, rpc) && Placed(b, h, rpc)
    ensures Pursues(env, p, b', h, rpc)
  {
    hide IndexOk, QuotasOk, GoalUpdate, SquashGoal;
  }

  lemma DescentKept(env: Env, p: Policy, b: Backend, b': Backend, h: Handle, title: string, capacity: bool)
    requires Valid(b) && Valid(b') && Framed(b, b', h, false, capacity) && Descends(env.mode, p, PolicyAt(b, h, title))
    requires Labelled(b', h, title) && (Live(b', h) || Unborn(b', h))
    ensures Descends(env.mode, p, PolicyAt(b', h, title))
  {
    hide QuotasOk;
    if Live(b, h) {
      LiveIsBorn(b, h);
    }
  }

  // A squash update on h, seen by all who work on its policy
  lemma SquashKeepsPursuit(env: Env, p: Policy, s: System, reqs: set<Request>, id: nat, d: Delivery, h: Handle,
                           other: nat, title: string)
    requires Valid(s.w.b) && AllPursue(env, p, s, reqs, h, title) && SquashesAgree(reqs, h, title)
    requires Live(s.w.b, h) && Labelled(s.w.b, h, title) && id in s.rpcs && other in s.rpcs
    requires s.rpcs[id].pc.Provisioning? && s.rpcs[id].pc.step.WriteSquash? && Squashes(s.rpcs[id].pc, h)
    ensures var b' := StepRpc(env, s.w, s.rpcs[id].req, s.rpcs[id].pc, d).0.b;
            && Valid(b') && Pursues(env, p, b', h, s.rpcs[other])
            && Live(b', h) && Descends(env.mode, p, b'.policies[h.filesystemID])
  {
    hide IndexOk, QuotasOk, OpOf, Revised, GoalUpdate, RewritesAreAlone, SquashGoal;
    var rpc, bystander := s.rpcs[id], s.rpcs[other];
    StepFrame(env, s.w, rpc.req, rpc.pc, d, h);
    SquashersRewrite(s.w.b, h, rpc, title);
    RevisedToGoal(env.mode, p, s.w.b.policies[h.filesystemID], SquashOf(rpc.req).value);
    GoalDescends(env.mode, p, Revised(s.w.b.policies[h.filesystemID], rpc.pc.step.update), SquashOf(rpc.req).value);
    if Squashes(bystander.pc, h) {
      SquashersRewrite(s.w.b, h, bystander, title);
      SquashersMeet(s.w.b, h, rpc, bystander, title);
    }
  }

  lemma GoalDescends(mode: AccessPolicyMode, p: Policy, q: Policy, squash: SquashPolicy)
    requires AtGoal(mode, p, q, Some(squash))
    ensures Descends(mode, p, q)
  {
  }

  lemma SquashersMeet(b: Backend, h: Handle, rpc: Rpc, other: Rpc, title: string)
    requires Placed(b, h, rpc) && Placed(b, h, other) && Live(b, h) && Labelled(b, h, title)
    requires Squashes(rpc.pc, h) && Squashes(other.pc, h)
    ensures Meet(rpc.req, other.req, h, title)
  {
    SquashersRewrite(b, h, rpc, title);
    SquashersRewrite(b, h, other, title);
  }

  // A publish or unpublish on h: then nobody rewrites its squash policy.
  lemma OperationKeepsPursuit(env: Env, p: Policy, s: System, reqs: set<Request>, id: nat, update: PolicyUpdate,
                              d: Delivery, h: Handle, other: nat, title: string)
    requires Valid(s.w.b) && AllPursue(env, p, s, reqs, h, title) && RewritesAreAlone(reqs, h, title)
    requires Live(s.w.b, h) && Labelled(s.w.b, h, title) && id in s.rpcs && other in s.rpcs
    requires s.rpcs[id].pc == Locked(WritePolicy(h, update)) && OpOf(s.rpcs[id].req, h).Some?
    ensures var b' := StepRpc(env, s.w, s.rpcs[id].req, s.rpcs[id].pc, d).0.b;
            Valid(b') && Pursues(env, p, b', h, s.rpcs[other]) && !Rewritten(reqs, h, title)
  {
    hide IndexOk, QuotasOk, OpOf, AtGoal, GoalUpdate;
    var rpc, bystander := s.rpcs[id], s.rpcs[other];
    ReplacedIsFramed(env, s.w, rpc.req, update, d, h);
    if Squashes(bystander.pc, h) {
      SquashersRewrite(s.w.b, h, bystander, title);
    }
  }

  // Any step, seen by another RPC
  lemma OthersPursue(env: Env, p: Policy, s: System, reqs: set<Request>, id: nat, d: Delivery, h: Handle, other: nat,
                     title: string)
    requires Valid(s.w.b) && AllPursue(env, p, s, reqs, h, title) && SquashesAgree(reqs, h, title)
    requires Labelled(s.w.b, h, title) && id in s.rpcs && other in s.rpcs
    requires var b' := StepRpc(env, s.w, s.rpcs[id].req, s.rpcs[id].pc, d).0.b;
             Labelled(b', h, title) && (Live(b', h) || Unborn(b', h))
    ensures var b' := StepRpc(env, s.w, s.rpcs[id].req, s.rpcs[id].pc, d).0.b;
            && Valid(b') && Pursues(env, p, b', h, s.rpcs[other])
            && (Rewritten(reqs, h, title) ==> Descends(env.mode, p, PolicyAt(b', h, title)))
  {
    hide IndexOk, QuotasOk, OpOf, RewritesAreAlone, Rewritten, Pursues, Descends, Placed;
    var rpc := s.rpcs[id];
    var b' := StepRpc(env, s.w, rpc.req, rpc.pc, d).0.b;
    StepFrame(env, s.w, rpc.req, rpc.pc, d, h);
    if TouchesPolicy(rpc.pc, h) && Live(s.w.b, h) {
      LiveIsBorn(s.w.b, h);
      if rpc.pc.Provisioning? {
        SquashKeepsPursuit(env, p, s, reqs, id, d, h, other, title);
      } else if OpOf(rpc.req, h).Some? {
        OperationKeepsPursuit(env, p, s, reqs, id, rpc.pc.at.update, d, h, other, title);
      } else {
        HopelessWrite(s.w.b, rpc.req, h, rpc.pc.at.update);
      }
    } else {
      if TouchesPolicy(rpc.pc, h) {
        AbsentPolicyStays(s.w.b, h, if rpc.pc.Provisioning? then rpc.pc.step.update else rpc.pc.at.update);
      }
      PursuesKept(env, p, s.w.b, b', h, s.rpcs[other], TouchesCapacity(rpc.pc, h));
      if Rewritten(reqs, h, title) {
        DescentKept(env, p, s.w.b, b', h, title, TouchesCapacity(rpc.pc, h));
      }
    }
  }

  lemma ApplyKeepsPursuit(env: Env, p: Policy, s: System, e: Event, reqs: set<Request>, h: Handle, title: string)
    requires Valid(s.w.b) && AllPursue(env, p, s, reqs, h, title) && SquashesAgree(reqs, h, title)
    requires Labelled(s.w.b, h, title) && (e.Start? ==> e.req in reqs)
    requires var b' := Apply(env, s, e).w.b;
             Labelled(b', h, title) && (Live(b', h) || Unborn(b', h))
    ensures AllPursue(env, p, Apply(env, s, e), reqs, h, title)
  {
    hide IndexOk, QuotasOk, SquashesAgree, StepRpc, Rewritten, Descends, Pursues;
    ApplyKeepsConsistent(env, s, e, reqs, h);
    if e.Step? && e.id in s.rpcs {
      var rpc := s.rpcs[e.id];
      OwnStepPursues(env, p, s, e.id, e.d, reqs, h, title);
      forall other | other in s.rpcs
        ensures other != e.id ==> Pursues(env, p, Apply(env, s, e).w.b, h, s.rpcs[other])
        ensures Rewritten(reqs, h, title) ==> Descends(env.mode, p, PolicyAt(Apply(env, s, e).w.b, h, title))
      {
        OthersPursue(env, p, s, reqs, e.id, e.d, h, other, title);
      }
    } else if e.Start? && e.id !in s.rpcs {
      BeginPursues(env, p, s.w.b, h, e.req);
    }
  }

  lemma BeginPursues(env: Env, p: Policy, b: Backend, h: Handle, req: Request)
    requires b.policies.Keys == b.filesystems.Keys
    ensures Pursues(env, p, b, h, Rpc(req, Begin))
  {
  }

  lemma OwnStepPursues(env: Env, p: Policy, s: System, id: nat, d: Delivery, reqs: set<Request>, h: Handle,
                       title: string)
    requires Valid(s.w.b) && AllPursue(env, p, s, reqs, h, title) && Labelled(s.w.b, h, title) && id in s.rpcs
    ensures var (w', pc') := StepRpc(env, s.w, s.rpcs[id].req, s.rpcs[id].pc, d);
            Valid(w'.b) && Pursues(env, p, w'.b, h, Rpc(s.rpcs[id].req, pc'))
  {
    hide IndexOk, QuotasOk, StepRpc, Descends, Pursues, Placed;
    if Squashes(s.rpcs[id].pc, h) && Live(s.w.b, h) {
      SquashersRewrite(s.w.b, h, s.rpcs[id], title);
    }
    StepPursues(env, p, s.w, s.rpcs[id], d, h);
  }

  lemma {:induction false} PursuitAlong(env: Env, p: Policy, s: System, events: seq<Event>, reqs: set<Request>,
                                        h: Handle, title: string)
    requires Valid(s.w.b) && AllPursue(env, p, s, reqs, h, title) && Draws(events, reqs)
    requires SquashesAgree(reqs, h, title)
    requires Live(Run(env, s, events).w.b, h) && Labelled(Run(env, s, events).w.b, h, title)
    ensures AllPursue(env, p, Run(env, s, events), reqs, h, title)
    decreases events
  {
    hide IndexOk, QuotasOk, SquashesAgree, StepRpc, AllPursue;
    History(env, s, events, h);
    if events != [] {
      History(env, Apply(env, s, events[0]), events[1..], h);
      ApplyKeepsPursuit(env, p, s, events[0], reqs, h, title);
      PursuitAlong(env, p, Apply(env, s, events[0]), events[1..], reqs, h, title);
    }
  }

  // The CreateVolumes that are about to return success after reconciling the
  // policy of h
  predicate Waits(rpc: Rpc, h: Handle) {
    rpc.pc.Provisioning? && rpc.pc.step.AwaitSquash? && HandleOf(rpc.pc.step.filesystem) == h
  }

  // In every run of such requests, the policy of h is then what its request made
  // of the first policy: the requested squash policy, label and protocols kept;
  // in space mode enabled with an empty list, in node mode with the same nodes.
  lemma SuccessfulSquashStays(env: Env, s: System, events: seq<Event>, reqs: set<Request>, h: Handle, title: string,
                              id: nat)
    requires Initial(s) && Draws(events, reqs) && SquashesAgree(reqs, h, title)
    requires Live(Run(env, s, events).w.b, h) && Labelled(Run(env, s, events).w.b, h, title)
    requires id in Run(env, s, events).rpcs && Waits(Run(env, s, events).rpcs[id], h)
    ensures var s' := Run(env, s, events);
            AtGoal(env.mode, PolicyAt(s.w.b, h, title), s'.w.b.policies[h.filesystemID], SquashOf(s'.rpcs[id].req))
  {
    hide IndexOk, QuotasOk, SquashesAgree, StepRpc, AtGoal;
    PursuitAlong(env, PolicyAt(s.w.b, h, title), s, events, reqs, h, title);
  }
}
