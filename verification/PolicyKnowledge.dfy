// The access policy of one filesystem as an atomic set of nodes, the requests
// that operate on it, and what an RPC in flight knows about it.
module PolicyKnowledge {
  import opened Wrappers
  import opened Text
  import opened Handles
  import opened Labels
  import opened NfsModel
  import opened LinodeContract
  import opened Transport
  import opened AccessPolicies
  import opened ControllerSteps
  import opened VolumeFrames
  import opened Ownership

  // Who may mount the filesystem: nobody unless enabled.
  datatype Admission = Admission(enabled: bool, nodes: set<int>)

  datatype AclOp = Insert(node: int) | Remove(node: int)

  function AdmissionOf(policy: Policy): Admission {
    Admission(policy.enabled, set id | id in policy.acl)
  }

  // A filesystem that does not exist yet admits nobody.
  function AdmissionAt(b: Backend, h: Handle): Admission
    requires b.policies.Keys == b.filesystems.Keys
  {
    if Live(b, h) then AdmissionOf(b.policies[h.filesystemID]) else Admission(false, {})
  }

  function Perform(a: Admission, op: AclOp): Admission {
    match op
    case Insert(node) => Admission(true, a.nodes + {node})
    case Remove(node) => Admission(a.enabled, a.nodes - {node})
  }

  function PerformAll(a: Admission, ops: seq<AclOp>): Admission
    decreases ops
  {
    if ops == [] then a else PerformAll(Perform(a, ops[0]), ops[1..])
  }

  function AsList(commit: Option<AclOp>): seq<AclOp> {
    if commit.None? then [] else [commit.value]
  }

  // The requests that matter

  // What a publish or unpublish is for. No Linode has an ID below one.
  function OpOf(req: Request, h: Handle): (op: Option<AclOp>)
    ensures op.Some? ==> ChangesPolicy(req) && op.value.node == NodeOf(req)
  {
    if !Addresses(req, h) || NodeOf(req) <= 0 then None
    else if req.PublishRequest? then Some(Insert(NodeOf(req)))
    else Some(Remove(NodeOf(req)))
  }

  // Different operations on h take the same lock.
  ghost predicate OpsAgree(reqs: set<Request>, h: Handle) {
    forall a, b | a in reqs && b in reqs && OpOf(a, h).Some? && OpOf(b, h).Some? ::
      OpOf(a, h) == OpOf(b, h) || a.volumeID == b.volumeID
  }

  // A CreateVolume that may rewrite the policy of h, which has this label: it
  // asks for a squash policy, and takes no lock.
  predicate Rewrites(req: Request, h: Handle, title: string) {
    && Provisionable(req) && LabelOf(req.name) == title
    && req.parameters.value.squash.Some? && SpaceMatches(req.parameters.value.space, h.spaceID)
  }

  // Whoever rewrites the squash policy of h, nobody operates on its nodes.
  ghost predicate RewritesAreAlone(reqs: set<Request>, h: Handle, title: string) {
    forall r, a | r in reqs && a in reqs && Rewrites(r, h, title) :: OpOf(a, h).None?
  }

  // In node mode, rewriting leaves the nodes alone; in space mode it does not.
  ghost predicate RewritesAreHarmless(env: Env, reqs: set<Request>, h: Handle, title: string) {
    RewritesAreAlone(reqs, h, title) && forall r | r in reqs && Rewrites(r, h, title) :: env.mode == NodeMode
  }

  ghost predicate PolicySafe(env: Env, reqs: set<Request>, h: Handle, title: string) {
    OpsAgree(reqs, h) && RewritesAreHarmless(env, reqs, h, title)
  }

  // What an RPC knows about the policy of h

  // The replacement that an RPC means to write over this policy.
  function Intended(req: Request, policy: Policy): PolicyUpdate
    requires ChangesPolicy(req)
  {
    if req.PublishRequest? then PolicyUpdateFor(policy, true, With(policy.acl, NodeOf(req)))
    else PolicyUpdateFor(policy, policy.enabled, Without(policy.acl, NodeOf(req)))
  }

  // What a successful RPC has achieved.
  predicate Effective(req: Request, policy: Policy)
    requires ChangesPolicy(req)
  {
    if req.PublishRequest? then policy.enabled && NodeOf(req) in policy.acl else NodeOf(req) !in policy.acl
  }

  // Before the filesystem exists, no RPC is past reading its policy.
  predicate Early(pc: Pc) {
    match pc
    case Locked(WritePolicy(_, _)) => false
    case Locked(AwaitPolicy(_)) => false
    case Locked(Unlock(VolumePublished)) => false
    case _ => true
  }

  ghost predicate Knows(b: Backend, h: Handle, rpc: Rpc)
    requires b.policies.Keys == b.filesystems.Keys
  {
    OpOf(rpc.req, h).Some? ==>
      && (Unborn(b, h) ==> Early(rpc.pc))
      && (Live(b, h) ==>
            var policy := b.policies[h.filesystemID];
            match rpc.pc
            case Locked(WritePolicy(_, update)) => update == Intended(rpc.req, policy)
            case Locked(AwaitPolicy(_)) => Effective(rpc.req, policy)
            case Locked(Unlock(response)) => response == Done(rpc.req) ==> Effective(rpc.req, policy)
            case _ => true)
  }

  lemma ReadKnows(b: Backend, req: Request, h: Handle, d: Delivery)
    requires Valid(b) && OpOf(req, h).Some?
    ensures Knows(b, h, Rpc(req, Locked(ReadPolicyStep(b, req, h, NodeOf(req), d))))
  {
    hide IndexOk, QuotasOk, ParseVolumeHandle, Atoi;
    if Live(b, h) {
      NonZeroKeepsAll(b.policies[h.filesystemID].acl);
      LiveIsBorn(b, h);
    }
  }

  // An accepted update replaces the policy with exactly the caller's node
  // inserted or removed; only an insert of an unknown node is rejected.
  lemma IntendedWrite(b: Backend, req: Request, h: Handle)
    requires Valid(b) && ChangesPolicy(req) && Live(b, h)
    ensures var p, n := b.policies[h.filesystemID], NodeOf(req);
            var (b', reply) := UpdatePolicy(b, h.spaceID, h.filesystemID, Intended(req, p));
            var accepted := req.UnpublishRequest? || (n > 0 && n in b.linodes);
            && (reply.Success? <==> accepted)
            && (!accepted ==> b' == b)
            && (accepted ==>
                  b' == b.(policies := b.policies[h.filesystemID := Performed(req, p)]))
  {
    hide IndexOk, QuotasOk;
    var p, n := b.policies[h.filesystemID], NodeOf(req);
    assert PolicyOk(b, p);
    WithIsInsert(p.acl, n);
    WithoutIsRemove(p.acl, n);
    if req.PublishRequest? && !(n > 0 && n in b.linodes) {
      assert n in With(p.acl, n);
    }
  }

  // The update of a publish for an impossible node is always rejected.
  lemma HopelessWrite(b: Backend, req: Request, k: Handle, update: PolicyUpdate)
    requires b.policies.Keys == b.filesystems.Keys
    requires Fits(req, Locked(WritePolicy(k, update))) && OpOf(req, k).None?
    ensures UpdatePolicy(b, k.spaceID, k.filesystemID, update).0 == b
    ensures UpdatePolicy(b, k.spaceID, k.filesystemID, update).1.Failure?
  {
  }

  lemma WriteKnows(b: Backend, req: Request, h: Handle, update: PolicyUpdate, d: Delivery)
    requires Valid(b) && OpOf(req, h).Some? && Knows(b, h, Rpc(req, Locked(WritePolicy(h, update))))
    ensures var (b', next) := LockedStep(b, req, WritePolicy(h, update), d);
            Valid(b') && Knows(b', h, Rpc(req, Locked(next)))
  {
    hide IndexOk, QuotasOk, ParseVolumeHandle, Atoi;
    UpdatePolicyFrame(b, h, update, h);
    if Live(b, h) {
      IntendedWrite(b, req, h);
      LiveIsBorn(b, h);
      WithIsInsert(b.policies[h.filesystemID].acl, NodeOf(req));
      WithoutIsRemove(b.policies[h.filesystemID].acl, NodeOf(req));
    }
  }

  // A step that leaves the policy alone
  lemma KnowsKept(b: Backend, b': Backend, h: Handle, rpc: Rpc, capacity: bool)
    requires Valid(b) && Valid(b') && Framed(b, b', h, false, capacity) && Knows(b, h, rpc) && Fits(rpc.req, rpc.pc)
    ensures Knows(b', h, rpc)
  {
    hide IndexOk, QuotasOk;
  }

  lemma StepKnows(env: Env, w: World, rpc: Rpc, d: Delivery, h: Handle)
    requires Valid(w.b) && Fits(rpc.req, rpc.pc) && Knows(w.b, h, rpc)
    ensures var (w', pc') := StepRpc(env, w, rpc.req, rpc.pc, d);
            Valid(w'.b) && Knows(w'.b, h, Rpc(rpc.req, pc'))
  {
    hide IndexOk, QuotasOk, ParseVolumeHandle, Atoi;
    StepKeepsValid(env, w, rpc.req, rpc.pc, d);
    if OpOf(rpc.req, h).Some? {
      match rpc.pc
      case Locked(ReadPolicy(_, _)) => ReadKnows(w.b, rpc.req, h, d);
      case Locked(WritePolicy(_, update)) => WriteKnows(w.b, rpc.req, h, update, d);
      case Locked(AwaitPolicy(_)) => WaitForPolicyFrame(w.b, h, h);
      case _ =>
    }
  }

  // The same operation once more changes nothing that an RPC knows.
  lemma SameOpKnows(b: Backend, actor: Request, h: Handle, update: PolicyUpdate, d: Delivery, rpc: Rpc)
    requires Valid(b) && Knows(b, h, Rpc(actor, Locked(WritePolicy(h, update)))) && Knows(b, h, rpc)
    requires OpOf(actor, h).Some? && OpOf(rpc.req, h) == OpOf(actor, h)
    ensures var b' := LockedStep(b, actor, WritePolicy(h, update), d).0;
            Valid(b') && Knows(b', h, rpc)
  {
    hide IndexOk, QuotasOk;
    UpdatePolicyFrame(b, h, update, h);
    if Live(b, h) {
      IntendedWrite(b, actor, h);
      LiveIsBorn(b, h);
      assert PolicyOk(b, b.policies[h.filesystemID]);
      SameOpTwice(actor, rpc.req, b.policies[h.filesystemID], h);
    }
  }

  // The policy after an accepted write
  function Performed(req: Request, p: Policy): Policy
    requires ChangesPolicy(req)
  {
    p.(enabled := req.PublishRequest? || p.enabled,
       acl := if req.PublishRequest? then With(p.acl, NodeOf(req)) else Without(p.acl, NodeOf(req)),
       status := Updating)
  }

  lemma SameOpTwice(actor: Request, req: Request, p: Policy, h: Handle)
    requires OpOf(actor, h).Some? && OpOf(req, h) == OpOf(actor, h) && Distinct(p.acl)
    ensures Intended(req, Performed(actor, p)) == Intended(req, p)
    ensures Effective(req, p) ==> Effective(req, Performed(actor, p))
  {
    var n := NodeOf(actor);
    assert n == NodeOf(req) && actor.PublishRequest? == req.PublishRequest?;
    WithIsInsert(p.acl, n);
    WithoutIsRemove(p.acl, n);
    WithoutAbsent(Without(p.acl, n), n);
  }

  // What a CreateVolume in flight knows about the policy of h

  // A pending squash update keeps all but the squash policy, in node mode.
  predicate KeepsNodes(b: Backend, h: Handle, update: PolicyUpdate)
    requires b.policies.Keys == b.filesystems.Keys
  {
    Live(b, h) ==>
      var p := b.policies[h.filesystemID];
      update.nfsLabel == Some(p.nfsLabel) && update.enabled == Some(p.enabled) && update.linodeIDs == Some(p.acl)
  }

  predicate SparesNodes(env: Env, b: Backend, h: Handle, rpc: Rpc)
    requires b.policies.Keys == b.filesystems.Keys
  {
    match rpc.pc
    case Provisioning(WriteSquash(f, _, update)) =>
      HandleOf(f) == h && env.mode == NodeMode ==> KeepsNodes(b, h, update)
    case _ => true
  }

  lemma ReadSquashSpares(env: Env, b: Backend, h: Handle, req: Request, f: Filesystem, mtlsMode: string, d: Delivery,
                         parameters: Parameters)
    requires Valid(b)
    ensures SparesNodes(env, b, h, Rpc(req, SquashStep(env, b, parameters, ReadSquash(f, mtlsMode), d).1))
  {
    hide IndexOk, QuotasOk, SquashUpdate;
    if Live(b, HandleOf(f)) && parameters.squash.Some? {
      assert PolicyOk(b, b.policies[f.id]);
      UpdateKeepsNodes(env.mode, b.policies[f.id], parameters.squash.value);
    }
  }

  lemma UpdateKeepsNodes(mode: AccessPolicyMode, p: Policy, squash: SquashPolicy)
    requires forall id | id in p.acl :: id > 0
    ensures var update := SquashUpdate(mode, p, squash);
            mode == NodeMode && update.Some? ==>
              && update.value.nfsLabel == Some(p.nfsLabel) && update.value.enabled == Some(p.enabled)
              && update.value.linodeIDs == Some(p.acl)
  {
    NonZeroKeepsAll(p.acl);
  }

  lemma StepSpares(env: Env, w: World, rpc: Rpc, d: Delivery, h: Handle)
    requires Valid(w.b) && Placed(w.b, h, rpc)
    ensures var (w', pc') := StepRpc(env, w, rpc.req, rpc.pc, d);
            Valid(w'.b) && SparesNodes(env, w'.b, h, Rpc(rpc.req, pc'))
  {
    hide IndexOk, QuotasOk, StepRpc, SquashUpdate, CsiVolume, KeepsNodes;
    StepKeepsValid(env, w, rpc.req, rpc.pc, d);
    if Squashing(rpc.pc) {
      StepsOfSquash(env, w, rpc, d, h);
      if rpc.pc.step.ReadSquash? {
        ReadSquashSpares(env, w.b, h, rpc.req, rpc.pc.step.filesystem, rpc.pc.step.mtlsMode, d,
                         rpc.req.parameters.value);
      }
    } else {
      StepsBeforeSquash(env, w, rpc, d, h);
    }
  }

  lemma SparesKept(env: Env, b: Backend, b': Backend, h: Handle, rpc: Rpc, capacity: bool)
    requires Valid(b) && Valid(b') && Framed(b, b', h, false, capacity)
    requires Placed(b, h, rpc) && SparesNodes(env, b, h, rpc)
    ensures SparesNodes(env, b', h, rpc)
  {
    hide IndexOk, QuotasOk;
  }
}
