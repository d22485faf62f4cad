// When the driver's read-modify-write cycles act as atomic operations on the
// access policy of one filesystem, over all runs of a set of requests.
module PolicySafety {
  import opened Wrappers
  import opened Text
  import opened Handles
  import opened NfsModel
  import opened LinodeContract
  import opened Transport
  import opened AccessPolicies
  import opened ControllerSteps
  import opened LockSafety
  import opened VolumeFrames
  import opened Ownership
  import opened PolicyKnowledge

  // The invariant of the system, for the filesystem h

  ghost predicate Guarded(env: Env, s: System, reqs: set<Request>, h: Handle)
    requires Valid(s.w.b)
  {
    && LocksExact(s) && Consistent(s, reqs, h)
    && forall id | id in s.rpcs :: Knows(s.w.b, h, s.rpcs[id]) && SparesNodes(env, s.w.b, h, s.rpcs[id])
  }

  predicate Labelled(b: Backend, h: Handle, title: string) {
    Live(b, h) ==> b.filesystems[h.filesystemID].nfsLabel == title
  }

  // A CreateVolume in the midst of setInitialSquashPolicy for h
  predicate Squashes(pc: Pc, h: Handle) {
    match pc
    case Provisioning(ReadSquash(f, _)) => HandleOf(f) == h
    case Provisioning(WriteSquash(f, _, _)) => HandleOf(f) == h
    case Provisioning(AwaitSquash(f, _)) => HandleOf(f) == h
    case _ => false
  }

  lemma SquashersRewrite(b: Backend, h: Handle, rpc: Rpc, title: string)
    requires Placed(b, h, rpc) && Live(b, h) && Labelled(b, h, title) && Squashes(rpc.pc, h)
    ensures Rewrites(rpc.req, h, title)
  {
  }

  lemma AbsentPolicyStays(b: Backend, h: Handle, update: PolicyUpdate)
    requires b.policies.Keys == b.filesystems.Keys && !Live(b, h)
    ensures UpdatePolicy(b, h.spaceID, h.filesystemID, update).0 == b
  {
  }

  // The operations of publish and unpublish

  lemma ReplacedIsFramed(env: Env, w: World, req: Request, update: PolicyUpdate, d: Delivery, h: Handle)
    requires Valid(w.b)
    ensures var b' := StepRpc(env, w, req, Locked(WritePolicy(h, update)), d).0.b;
            && b' == LockedStep(w.b, req, WritePolicy(h, update), d).0
            && Valid(b') && Framed(w.b, b', h, true, false) && (!Live(w.b, h) ==> b' == w.b)
  {
    hide IndexOk, QuotasOk;
    UpdatePolicyFrame(w.b, h, update, h);
  }

  // A bystander and an operation under way
  lemma OperationKeepsKnowledge(env: Env, s: System, reqs: set<Request>, id: nat, update: PolicyUpdate, d: Delivery,
                                h: Handle, other: nat)
    requires Valid(s.w.b) && Guarded(env, s, reqs, h) && OpsAgree(reqs, h)
    requires id in s.rpcs && other in s.rpcs && other != id
    requires s.rpcs[id].pc == Locked(WritePolicy(h, update)) && OpOf(s.rpcs[id].req, h).Some?
    ensures var b' := StepRpc(env, s.w, s.rpcs[id].req, s.rpcs[id].pc, d).0.b;
            Valid(b') && Knows(b', h, s.rpcs[other])
  {
    hide IndexOk, QuotasOk, OpOf;
    var rpc, bystander := s.rpcs[id], s.rpcs[other];
    ReplacedIsFramed(env, s.w, rpc.req, update, d, h);
    if OpOf(bystander.req, h).Some? {
      if OpOf(bystander.req, h) == OpOf(rpc.req, h) {
        SameOpKnows(s.w.b, rpc.req, h, update, d, bystander);
      } else if bystander.pc.Locked? {
        HoldersDiffer(s, id, other);
      }
    }
  }

  lemma OperationKeepsSpared(env: Env, s: System, reqs: set<Request>, id: nat, update: PolicyUpdate, d: Delivery,
                             h: Handle, other: nat, title: string)
    requires Valid(s.w.b) && Consistent(s, reqs, h) && RewritesAreAlone(reqs, h, title) && Labelled(s.w.b, h, title)
    requires id in s.rpcs && other in s.rpcs && SparesNodes(env, s.w.b, h, s.rpcs[other])
    requires s.rpcs[id].pc == Locked(WritePolicy(h, update)) && OpOf(s.rpcs[id].req, h).Some?
    ensures var b' := StepRpc(env, s.w, s.rpcs[id].req, s.rpcs[id].pc, d).0.b;
            Valid(b') && SparesNodes(env, b', h, s.rpcs[other])
  {
    hide IndexOk, QuotasOk, OpOf;
    var rpc, bystander := s.rpcs[id], s.rpcs[other];
    ReplacedIsFramed(env, s.w, rpc.req, update, d, h);
    if Live(s.w.b, h) && bystander.pc.Provisioning? && bystander.pc.step.WriteSquash?
       && HandleOf(bystander.pc.step.filesystem) == h {
      SquashersRewrite(s.w.b, h, bystander, title);
    }
  }

  // Squash updates

  lemma SquashKeepsNodes(env: Env, w: World, rpc: Rpc, d: Delivery, h: Handle)
    requires Valid(w.b) && Placed(w.b, h, rpc) && SparesNodes(env, w.b, h, rpc)
    requires rpc.pc.Provisioning? && rpc.pc.step.WriteSquash?
    requires HandleOf(rpc.pc.step.filesystem) == h && env.mode == NodeMode && Live(w.b, h)
    ensures var b' := StepRpc(env, w, rpc.req, rpc.pc, d).0.b;
            && Valid(b') && Live(b', h)
            && var p, q := w.b.policies[h.filesystemID], b'.policies[h.filesystemID];
               q.nfsLabel == p.nfsLabel && q.enabled == p.enabled && q.acl == p.acl && q.protocols == p.protocols
  {
    hide IndexOk, QuotasOk;
    UpdatePolicyFrame(w.b, h, rpc.pc.step.update, h);
    var b' := UpdatePolicy(w.b, h.spaceID, h.filesystemID, rpc.pc.step.update).0;
    assert PolicyOk(w.b, w.b.policies[h.filesystemID]) && PolicyOk(b', b'.policies[h.filesystemID]);
  }

  lemma SquashKeepsSpared(env: Env, s: System, id: nat, d: Delivery, h: Handle, other: nat)
    requires Valid(s.w.b) && id in s.rpcs && other in s.rpcs && Placed(s.w.b, h, s.rpcs[id])
    requires SparesNodes(env, s.w.b, h, s.rpcs[id]) && SparesNodes(env, s.w.b, h, s.rpcs[other])
    requires s.rpcs[id].pc.Provisioning? && s.rpcs[id].pc.step.WriteSquash?
             && HandleOf(s.rpcs[id].pc.step.filesystem) == h
    ensures var b' := StepRpc(env, s.w, s.rpcs[id].req, s.rpcs[id].pc, d).0.b;
            Valid(b') && SparesNodes(env, b', h, s.rpcs[other])
  {
    hide IndexOk, QuotasOk;
    var rpc := s.rpcs[id];
    StepFrame(env, s.w, rpc.req, rpc.pc, d, h);
    if Live(s.w.b, h) {
      if env.mode == NodeMode {
        SquashKeepsNodes(env, s.w, rpc, d, h);
      }
    } else {
      AbsentPolicyStays(s.w.b, h, rpc.pc.step.update);
    }
  }

  lemma SquashKeepsKnowledge(env: Env, s: System, reqs: set<Request>, id: nat, d: Delivery, h: Handle, other: nat,
                             title: string)
    requires Valid(s.w.b) && Guarded(env, s, reqs, h) && RewritesAreAlone(reqs, h, title) && Labelled(s.w.b, h, title)
    requires id in s.rpcs && other in s.rpcs
    requires s.rpcs[id].pc.Provisioning? && s.rpcs[id].pc.step.WriteSquash?
             && HandleOf(s.rpcs[id].pc.step.filesystem) == h
    ensures var b' := StepRpc(env, s.w, s.rpcs[id].req, s.rpcs[id].pc, d).0.b;
            Valid(b') && Knows(b', h, s.rpcs[other])
  {
    hide IndexOk, QuotasOk, OpOf;
    var rpc := s.rpcs[id];
    StepFrame(env, s.w, rpc.req, rpc.pc, d, h);
    if Live(s.w.b, h) {
      SquashersRewrite(s.w.b, h, rpc, title);
      assert OpOf(s.rpcs[other].req, h).None?;
    } else {
      AbsentPolicyStays(s.w.b, h, rpc.pc.step.update);
    }
  }

  // Every step keeps what the other RPCs know.
  lemma OthersKnow(env: Env, s: System, reqs: set<Request>, id: nat, d: Delivery, h: Handle, other: nat, title: string)
    requires Valid(s.w.b) && Guarded(env, s, reqs, h) && PolicySafe(env, reqs, h, title) && Labelled(s.w.b, h, title)
    requires id in s.rpcs && other in s.rpcs && other != id
    ensures var b' := StepRpc(env, s.w, s.rpcs[id].req, s.rpcs[id].pc, d).0.b;
            Valid(b') && Knows(b', h, s.rpcs[other]) && SparesNodes(env, b', h, s.rpcs[other])
  {
    hide IndexOk, QuotasOk, OpOf, OpsAgree, RewritesAreAlone, Knows, SparesNodes, Placed;
    var rpc := s.rpcs[id];
    var b' := StepRpc(env, s.w, rpc.req, rpc.pc, d).0.b;
    if !TouchesPolicy(rpc.pc, h) {
      StepFrame(env, s.w, rpc.req, rpc.pc, d, h);
      KnowsKept(s.w.b, b', h, s.rpcs[other], TouchesCapacity(rpc.pc, h));
      SparesKept(env, s.w.b, b', h, s.rpcs[other], TouchesCapacity(rpc.pc, h));
    } else if rpc.pc.Provisioning? {
      SquashKeepsSpared(env, s, id, d, h, other);
      SquashKeepsKnowledge(env, s, reqs, id, d, h, other, title);
    } else if OpOf(rpc.req, h).Some? {
      OperationKeepsKnowledge(env, s, reqs, id, rpc.pc.at.update, d, h, other);
      OperationKeepsSpared(env, s, reqs, id, rpc.pc.at.update, d, h, other, title);
    } else {
      HopelessWrite(s.w.b, rpc.req, h, rpc.pc.at.update);
    }
  }

  lemma ApplyKeepsGuarded(env: Env, s: System, e: Event, reqs: set<Request>, h: Handle, title: string)
    requires Valid(s.w.b) && Guarded(env, s, reqs, h) && PolicySafe(env, reqs, h, title) && Labelled(s.w.b, h, title)
    requires e.Start? ==> e.req in reqs
    ensures Guarded(env, Apply(env, s, e), reqs, h)
  {
    hide IndexOk, QuotasOk, PolicySafe, StepRpc;
    ApplyKeepsLocksExact(env, s, e);
    ApplyKeepsConsistent(env, s, e, reqs, h);
    if e.Step? && e.id in s.rpcs {
      var rpc := s.rpcs[e.id];
      StepKnows(env, s.w, rpc, e.d, h);
      StepSpares(env, s.w, rpc, e.d, h);
      forall other | other in s.rpcs && other != e.id
        ensures Knows(Apply(env, s, e).w.b, h, s.rpcs[other])
                && SparesNodes(env, Apply(env, s, e).w.b, h, s.rpcs[other])
      {
        OthersKnow(env, s, reqs, e.id, e.d, h, other, title);
      }
    }
  }

  // The operations of a run

  // The operation that an event performs on h. It depends on who performs the
  // write, never on the list that is written: a publish of a known Linode
  // inserts its node, an unpublish removes it.
  function CommitOf(s: System, e: Event, h: Handle): Option<AclOp>
  {
    if e.Start? || e.id !in s.rpcs || e.d.RequestLost? || !Live(s.w.b, h) then None
    else
      var rpc := s.rpcs[e.id];
      if !(rpc.pc.Locked? && rpc.pc.at.WritePolicy? && rpc.pc.at.h == h) then None
      else
        match OpOf(rpc.req, h)
        case Some(Insert(node)) => if node in s.w.b.linodes then Some(Insert(node)) else None
        case op => op
  }

  // The operations of a run, in the order of their events
  ghost function Commits(env: Env, s: System, events: seq<Event>, h: Handle): seq<AclOp>
    requires Valid(s.w.b)
    decreases events
  {
    if events == [] then []
    else AsList(CommitOf(s, events[0], h)) + Commits(env, Apply(env, s, events[0]), events[1..], h)
  }

  // The policy of h; before it is created, the one that it will start with.
  function PolicyAt(b: Backend, h: Handle, title: string): Policy
    requires b.policies.Keys == b.filesystems.Keys
  {
    if Live(b, h) then b.policies[h.filesystemID]
    else Policy(h.filesystemID, title, false, [], RootSquash, [NFSv4], PolicyActive)
  }

  // How one event may change a policy.
  ghost predicate PolicyEvolves(p: Policy, q: Policy, commit: Option<AclOp>) {
    && q.nfsLabel == p.nfsLabel && q.protocols == p.protocols
    && match commit
       case None => q.enabled == p.enabled && q.acl == p.acl
       case Some(Insert(node)) => q.enabled && q.acl == With(p.acl, node)
       case Some(Remove(node)) => q.enabled == p.enabled && q.acl == Without(p.acl, node)
  }

  lemma OperationIsAtomic(env: Env, s: System, id: nat, d: Delivery, h: Handle)
    requires Valid(s.w.b) && Live(s.w.b, h) && id in s.rpcs && s.rpcs[id].pc.Locked? && s.rpcs[id].pc.at.WritePolicy?
    requires s.rpcs[id].pc.at.h == h && OpOf(s.rpcs[id].req, h).Some? && Knows(s.w.b, h, s.rpcs[id])
    ensures var b' := StepRpc(env, s.w, s.rpcs[id].req, s.rpcs[id].pc, d).0.b;
            && Live(b', h) && b'.policies.Keys == b'.filesystems.Keys
            && b'.policies[h.filesystemID].squash == s.w.b.policies[h.filesystemID].squash
            && PolicyEvolves(s.w.b.policies[h.filesystemID], b'.policies[h.filesystemID], CommitOf(s, Step(id, d), h))
  {
    hide IndexOk, QuotasOk;
    IntendedWrite(s.w.b, s.rpcs[id].req, h);
  }

  lemma SquashIsNoOperation(env: Env, s: System, reqs: set<Request>, id: nat, d: Delivery, h: Handle, title: string)
    requires Valid(s.w.b) && Guarded(env, s, reqs, h) && RewritesAreHarmless(env, reqs, h, title)
             && Labelled(s.w.b, h, title)
    requires Live(s.w.b, h) && id in s.rpcs && s.rpcs[id].pc.Provisioning? && TouchesPolicy(s.rpcs[id].pc, h)
    ensures var b' := StepRpc(env, s.w, s.rpcs[id].req, s.rpcs[id].pc, d).0.b;
            && Live(b', h) && b'.policies.Keys == b'.filesystems.Keys && Rewrites(s.rpcs[id].req, h, title)
            && PolicyEvolves(s.w.b.policies[h.filesystemID], b'.policies[h.filesystemID], None)
  {
    hide IndexOk, QuotasOk, OpOf;
    var rpc := s.rpcs[id];
    SquashersRewrite(s.w.b, h, rpc, title);
    SquashKeepsNodes(env, s.w, rpc, d, h);
    assert PolicyOk(s.w.b, s.w.b.policies[h.filesystemID]);
  }

  // One event performs its operation on the policy, or leaves it alone. A step
  // that creates the filesystem performs none.
  lemma EventIsAtomic(env: Env, s: System, e: Event, reqs: set<Request>, h: Handle, title: string)
    requires Valid(s.w.b) && Guarded(env, s, reqs, h) && PolicySafe(env, reqs, h, title) && Labelled(s.w.b, h, title)
    requires var b' := Apply(env, s, e).w.b;
             Labelled(b', h, title) && (Live(b', h) || Unborn(b', h))
    ensures var p, q := PolicyAt(s.w.b, h, title), PolicyAt(Apply(env, s, e).w.b, h, title);
            && PolicyEvolves(p, q, CommitOf(s, e, h))
            && (q.squash == p.squash || exists r :: r in reqs && Rewrites(r, h, title))
  {
    hide IndexOk, QuotasOk, OpOf, OpsAgree, RewritesAreHarmless, Knows, SparesNodes, Placed, Rewrites;
    if e.Step? && e.id in s.rpcs {
      var rpc := s.rpcs[e.id];
      StepFrame(env, s.w, rpc.req, rpc.pc, e.d, h);
      if Live(s.w.b, h) {
        LiveIsBorn(s.w.b, h);
        LiveEventIsAtomic(env, s, e.id, e.d, reqs, h, title);
      }
    }
  }

  lemma LiveEventIsAtomic(env: Env, s: System, id: nat, d: Delivery, reqs: set<Request>, h: Handle, title: string)
    requires Valid(s.w.b) && Guarded(env, s, reqs, h) && PolicySafe(env, reqs, h, title) && Labelled(s.w.b, h, title)
    requires id in s.rpcs && Live(s.w.b, h)
    ensures var b' := StepRpc(env, s.w, s.rpcs[id].req, s.rpcs[id].pc, d).0.b;
            Valid(b') &&
            (Live(b', h) ==>
               var p, q := s.w.b.policies[h.filesystemID], b'.policies[h.filesystemID];
               && PolicyEvolves(p, q, CommitOf(s, Step(id, d), h))
               && (q.squash == p.squash || exists r :: r in reqs && Rewrites(r, h, title)))
  {
    hide IndexOk, QuotasOk, OpOf, OpsAgree, RewritesAreHarmless, Knows, SparesNodes, Placed, Rewrites;
    var rpc := s.rpcs[id];
    StepFrame(env, s.w, rpc.req, rpc.pc, d, h);
    if TouchesPolicy(rpc.pc, h) {
      if rpc.pc.Provisioning? {
        SquashIsNoOperation(env, s, reqs, id, d, h, title);
      } else if OpOf(rpc.req, h).Some? {
        OperationIsAtomic(env, s, id, d, h);
      } else {
        HopelessWrite(s.w.b, rpc.req, h, rpc.pc.at.update);
      }
    }
  }

  lemma EvolutionIsOperation(p: Policy, q: Policy, commit: Option<AclOp>)
    requires PolicyEvolves(p, q, commit) && Distinct(p.acl)
    ensures AdmissionOf(q) == PerformAll(AdmissionOf(p), AsList(commit))
  {
    match commit
    case None => assert AdmissionOf(q).nodes == AdmissionOf(p).nodes;
    case Some(op) =>
      WithIsInsert(p.acl, op.node);
      WithoutIsRemove(p.acl, op.node);
      var listed, performed := AdmissionOf(q).nodes, Perform(AdmissionOf(p), op).nodes;
      assert forall id :: id in listed <==> id in performed;
      assert listed == performed;
      assert AsList(commit)[1..] == [];
  }

  lemma {:induction false} PerformInTwo(a: Admission, first: seq<AclOp>, second: seq<AclOp>)
    ensures PerformAll(a, first + second) == PerformAll(PerformAll(a, first), second)
    decreases first
  {
    if first == [] {
      assert first + second == second;
    } else {
      assert (first + second)[1..] == first[1..] + second;
      PerformInTwo(Perform(a, first[0]), first[1..], second);
    }
  }

  lemma PolicyAtIsDistinct(b: Backend, h: Handle, title: string)
    requires Valid(b)
    ensures Distinct(PolicyAt(b, h, title).acl)
  {
    hide IndexOk, QuotasOk;
    if Live(b, h) {
      assert PolicyOk(b, b.policies[h.filesystemID]);
    }
  }

  lemma {:induction false} CommitsAlong(env: Env, s: System, events: seq<Event>, reqs: set<Request>, h: Handle,
                                        title: string)
    requires Valid(s.w.b) && Guarded(env, s, reqs, h) && Draws(events, reqs) && PolicySafe(env, reqs, h, title)
    requires var b' := Run(env, s, events).w.b;
             Live(b', h) && Labelled(b', h, title)
    ensures Guarded(env, Run(env, s, events), reqs, h)
    ensures var p, q := PolicyAt(s.w.b, h, title), Run(env, s, events).w.b.policies[h.filesystemID];
            && AdmissionOf(q) == PerformAll(AdmissionOf(p), Commits(env, s, events, h))
            && q.nfsLabel == p.nfsLabel && q.protocols == p.protocols && (p.enabled ==> q.enabled)
            && (q.squash == p.squash || exists r :: r in reqs && Rewrites(r, h, title))
    decreases events
  {
    hide IndexOk, QuotasOk, PolicySafe, Rewrites, StepRpc, Guarded;
    History(env, s, events, h);
    if events != [] {
      var s1 := Apply(env, s, events[0]);
      var commit := CommitOf(s, events[0], h);
      History(env, s1, events[1..], h);
      ApplyKeepsGuarded(env, s, events[0], reqs, h, title);
      CommitsAlong(env, s1, events[1..], reqs, h, title);
      EventIsAtomic(env, s, events[0], reqs, h, title);
      PolicyAtIsDistinct(s.w.b, h, title);
      var p, p1 := PolicyAt(s.w.b, h, title), PolicyAt(s1.w.b, h, title);
      EvolutionIsOperation(p, p1, commit);
      PerformInTwo(AdmissionOf(p), AsList(commit), Commits(env, s1, events[1..], h));
    }
  }

  lemma InitiallyGuarded(env: Env, s: System, reqs: set<Request>, h: Handle)
    requires Initial(s)
    ensures Guarded(env, s, reqs, h)
  {
    hide IndexOk, QuotasOk;
  }

  // No lost update: in every run of such requests, what publishes and unpublishes
  // have written is what the same operations do, one after the other, to an
  // atomic set. The policy's label and protocols never change, it is never
  // disabled again, its list never holds a node twice, and without requests that
  // rewrite it its squash policy stays. The filesystem may be created on the way.
  lemma NoLostUpdate(env: Env, s: System, events: seq<Event>, reqs: set<Request>, h: Handle)
    requires Initial(s) && Draws(events, reqs) && Live(Run(env, s, events).w.b, h)
    requires PolicySafe(env, reqs, h, Run(env, s, events).w.b.filesystems[h.filesystemID].nfsLabel)
    ensures var b' := Run(env, s, events).w.b;
            var title := b'.filesystems[h.filesystemID].nfsLabel;
            var p, q := PolicyAt(s.w.b, h, title), b'.policies[h.filesystemID];
            && AdmissionOf(q) == PerformAll(AdmissionOf(p), Commits(env, s, events, h))
            && q.nfsLabel == p.nfsLabel && q.protocols == p.protocols && (p.enabled ==> q.enabled)
            && (q.squash == p.squash || exists r :: r in reqs && Rewrites(r, h, title))
            && Distinct(q.acl)
  {
    hide IndexOk, QuotasOk, PolicySafe, Rewrites, StepRpc, Guarded;
    var b' := Run(env, s, events).w.b;
    InitiallyGuarded(env, s, reqs, h);
    CommitsAlong(env, s, events, reqs, h, b'.filesystems[h.filesystemID].nfsLabel);
    assert PolicyOk(b', b'.policies[h.filesystemID]);
  }

  // Enough for safety: all operations on h spell its volume ID in one way, and
  // nobody rewrites its squash policy.
  lemma OneSpellingIsSafe(env: Env, reqs: set<Request>, h: Handle, title: string, key: string)
    requires forall r | r in reqs && OpOf(r, h).Some? :: r.volumeID == key
    requires forall r | r in reqs :: !Rewrites(r, h, title)
    ensures PolicySafe(env, reqs, h, title)
  {
    hide OpOf, Rewrites;
  }

  // In particular if they use the ID that CreateVolume returned.
  lemma CanonicalIsSafe(env: Env, reqs: set<Request>, h: Handle, title: string)
    requires forall r | r in reqs && OpOf(r, h).Some? :: Canonical(r.volumeID)
    requires forall r | r in reqs :: !Rewrites(r, h, title)
    ensures PolicySafe(env, reqs, h, title)
  {
    hide Rewrites;
    forall r | r in reqs && OpOf(r, h).Some? ensures r.volumeID == FormatVolumeHandle(h.spaceID, h.filesystemID) {
      assert ParseVolumeHandle(r.volumeID) == Some(h);
    }
    OneSpellingIsSafe(env, reqs, h, title, FormatVolumeHandle(h.spaceID, h.filesystemID));
  }

  lemma SafeRunIsGuarded(env: Env, s: System, events: seq<Event>, reqs: set<Request>, h: Handle)
    requires Initial(s) && Draws(events, reqs) && Live(Run(env, s, events).w.b, h)
    requires PolicySafe(env, reqs, h, Run(env, s, events).w.b.filesystems[h.filesystemID].nfsLabel)
    ensures Guarded(env, Run(env, s, events), reqs, h)
  {
    hide IndexOk, QuotasOk, PolicySafe, Rewrites, StepRpc, Guarded;
    InitiallyGuarded(env, s, reqs, h);
    CommitsAlong(env, s, events, reqs, h, Run(env, s, events).w.b.filesystems[h.filesystemID].nfsLabel);
  }

  // In every reachable state, the API accepts the update that an RPC is about to
  // send unless it publishes to a Linode that does not exist. In particular the
  // API's check for duplicates never fires, and no unpublish is ever rejected.
  lemma UpdatesAreAccepted(env: Env, s: System, events: seq<Event>, reqs: set<Request>, h: Handle, id: nat)
    requires Initial(s) && Draws(events, reqs) && Live(Run(env, s, events).w.b, h)
    requires PolicySafe(env, reqs, h, Run(env, s, events).w.b.filesystems[h.filesystemID].nfsLabel)
    requires var rpcs := Run(env, s, events).rpcs;
             id in rpcs && rpcs[id].pc.Locked? && rpcs[id].pc.at.WritePolicy? && rpcs[id].pc.at.h == h
    ensures var s' := Run(env, s, events);
            var req, update := s'.rpcs[id].req, s'.rpcs[id].pc.at.update;
            && ChangesPolicy(req) && (ValidPolicyUpdate(update) <==> req.UnpublishRequest? || NodeOf(req) > 0)
            && (UpdatePolicy(s'.w.b, h.spaceID, h.filesystemID, update).1.Success? <==>
                req.UnpublishRequest? || (NodeOf(req) > 0 && NodeOf(req) in s'.w.b.linodes))
  {
    hide IndexOk, QuotasOk, PolicySafe, StepRpc;
    SafeRunIsGuarded(env, s, events, reqs, h);
    var s' := Run(env, s, events);
    assert Fits(s'.rpcs[id].req, s'.rpcs[id].pc) && Knows(s'.w.b, h, s'.rpcs[id]);
    UpdateIsAccepted(s'.w.b, s'.rpcs[id].req, h, s'.rpcs[id].pc.at.update);
  }

  lemma UpdateIsAccepted(b: Backend, req: Request, h: Handle, update: PolicyUpdate)
    requires Valid(b) && Live(b, h)
    requires Fits(req, Locked(WritePolicy(h, update))) && Knows(b, h, Rpc(req, Locked(WritePolicy(h, update))))
    ensures ValidPolicyUpdate(update) <==> req.UnpublishRequest? || NodeOf(req) > 0
    ensures UpdatePolicy(b, h.spaceID, h.filesystemID, update).1.Success? <==>
            req.UnpublishRequest? || (NodeOf(req) > 0 && NodeOf(req) in b.linodes)
  {
    hide IndexOk, QuotasOk;
    if OpOf(req, h).Some? {
      IntendedWrite(b, req, h);
      assert PolicyOk(b, b.policies[h.filesystemID]);
      WithIsInsert(b.policies[h.filesystemID].acl, NodeOf(req));
      WithoutIsRemove(b.policies[h.filesystemID].acl, NodeOf(req));
    } else {
      HopelessWrite(b, req, h, update);
    }
  }

  // When a publish is about to return success, the status that
  // ControllerGetVolume would report lists its node; when an unpublish is, it
  // does not. Reported IDs parse back to the access list.
  lemma SuccessIsReported(env: Env, s: System, events: seq<Event>, reqs: set<Request>, h: Handle, id: nat)
    requires Initial(s) && Draws(events, reqs) && Live(Run(env, s, events).w.b, h)
    requires PolicySafe(env, reqs, h, Run(env, s, events).w.b.filesystems[h.filesystemID].nfsLabel)
    requires var rpcs := Run(env, s, events).rpcs;
             id in rpcs && Addresses(rpcs[id].req, h) && rpcs[id].pc == Locked(Unlock(Done(rpcs[id].req)))
    ensures var s' := Run(env, s, events);
            var req, policy := s'.rpcs[id].req, s'.w.b.policies[h.filesystemID];
            && Effective(req, policy)
            && (Itoa(NodeOf(req)) in PublishedNodeIDs(policy) <==> req.PublishRequest?)
  {
    hide IndexOk, QuotasOk, PolicySafe, StepRpc, ParseVolumeHandle, Atoi;
    SafeRunIsGuarded(env, s, events, reqs, h);
    var s' := Run(env, s, events);
    assert Fits(s'.rpcs[id].req, s'.rpcs[id].pc) && Knows(s'.w.b, h, s'.rpcs[id]);
    assert PolicyOk(s'.w.b, s'.w.b.policies[h.filesystemID]);
    ReportedWhenKnown(s'.w.b, h, s'.rpcs[id]);
  }

  lemma ReportedWhenKnown(b: Backend, h: Handle, rpc: Rpc)
    requires Valid(b) && Live(b, h) && Knows(b, h, rpc) && Fits(rpc.req, rpc.pc)
    requires Addresses(rpc.req, h) && rpc.pc == Locked(Unlock(Done(rpc.req)))
    ensures var policy := b.policies[h.filesystemID];
            && Effective(rpc.req, policy)
            && (Itoa(NodeOf(rpc.req)) in PublishedNodeIDs(policy) <==> rpc.req.PublishRequest?)
  {
    hide IndexOk, QuotasOk, ParseVolumeHandle;
    assert PolicyOk(b, b.policies[h.filesystemID]);
    ReportedExactly(b.policies[h.filesystemID], NodeOf(rpc.req));
  }

  lemma ReportedExactly(policy: Policy, node: int)
    requires forall id | id in policy.acl :: id > 0 && IsInt(id)
    requires IsInt(node)
    ensures Itoa(node) in PublishedNodeIDs(policy) <==> policy.enabled && node in policy.acl
  {
    PublishedNodeIDsParseBack(policy);
    AtoiItoa(node);
    var ids := PublishedNodeIDs(policy);
    if policy.enabled {
      if Itoa(node) in ids {
        var i :| 0 <= i < |ids| && ids[i] == Itoa(node);
        assert policy.acl[i] == node;
      }
      if node in policy.acl {
        var i :| 0 <= i < |policy.acl| && policy.acl[i] == node;
        NonZeroKeepsAll(policy.acl);
        assert ids[i] == Itoa(node);
      }
    }
  }
}
