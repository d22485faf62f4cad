// What a step of any RPC may do to one filesystem, its access policy and its
// capacity.
module VolumeFrames {
  import opened Wrappers
  import opened Text
  import opened Handles
  import opened NfsModel
  import opened LinodeContract
  import opened Transport
  import opened AccessPolicies
  import opened ControllerSteps

  predicate Live(b: Backend, h: Handle) {
    Exists(b, h.spaceID, h.filesystemID)
  }

  // Not created yet: filesystem IDs are given out in order, and only once.
  predicate Unborn(b: Backend, h: Handle) {
    h.spaceID == b.spaceID && h.filesystemID >= b.nextFilesystemID
  }

  // The steps that may change the policy of h, or its capacity
  predicate TouchesPolicy(pc: Pc, h: Handle) {
    match pc
    case Locked(WritePolicy(k, _)) => k == h
    case Provisioning(WriteSquash(f, _, _)) => Handle(f.spaceID, f.id) == h
    case _ => false
  }

  predicate TouchesCapacity(pc: Pc, h: Handle) {
    match pc
    case Locked(WriteQuota(k, _)) => k == h
    case _ => false
  }

  // A step from b to b' that may change only these two things about h, apart
  // from deleting it, creating it, activating it and settling its policy. Even
  // then it keeps label and tags, and never lowers the capacity.
  ghost predicate Framed(b: Backend, b': Backend, h: Handle, policy: bool, capacity: bool)
    requires Valid(b) && Valid(b')
  {
    && b'.spaceID == b.spaceID && b'.spaceLabel == b.spaceLabel && b'.region == b.region && b'.linodes == b.linodes
    && b'.mtlsMode == b.mtlsMode
    && (Unborn(b', h) ==> Unborn(b, h))
    && (Live(b', h) ==>
          if Live(b, h) then
            var f, f' := b.filesystems[h.filesystemID], b'.filesystems[h.filesystemID];
            var p, p' := b.policies[h.filesystemID], b'.policies[h.filesystemID];
            && f'.nfsLabel == f.nfsLabel && f'.tags == f.tags && f.maxCapacity <= f'.maxCapacity
            && (policy || p' == p.(status := p'.status))
            && (capacity || f'.maxCapacity == f.maxCapacity)
          else
            Unborn(b, h) && b'.policies[h.filesystemID] == NewPolicy(b'.filesystems[h.filesystemID]))
  }

  lemma UpdatePolicyFrame(b: Backend, k: Handle, update: PolicyUpdate, h: Handle)
    requires Valid(b)
    ensures var b' := UpdatePolicy(b, k.spaceID, k.filesystemID, update).0;
            Valid(b') && Framed(b, b', h, k == h, false)
  {
    hide IndexOk, QuotasOk;
    UpdatePolicyKeepsValid(b, k.spaceID, k.filesystemID, update);
  }

  lemma WaitForPolicyFrame(b: Backend, k: Handle, h: Handle)
    requires Valid(b)
    ensures var b' := WaitForPolicy(b, k.spaceID, k.filesystemID, PolicyActive).0;
            Valid(b') && Framed(b, b', h, false, false)
  {
    hide IndexOk, QuotasOk;
    WaitForPolicyKeepsValid(b, k.spaceID, k.filesystemID, PolicyActive);
  }

  lemma UpdateFilesystemFrame(b: Backend, k: Handle, capacity: int, h: Handle)
    requires Valid(b)
    ensures var b' := UpdateFilesystem(b, k.spaceID, k.filesystemID, Some(capacity)).0;
            Valid(b') && Framed(b, b', h, false, k == h)
  {
    hide IndexOk, QuotasOk;
    UpdateFilesystemKeepsValid(b, k.spaceID, k.filesystemID, Some(capacity));
  }

  lemma WaitForFilesystemFrame(b: Backend, k: Handle, h: Handle)
    requires Valid(b)
    ensures var b' := WaitForFilesystem(b, k.spaceID, k.filesystemID, FilesystemActive).0;
            Valid(b') && Framed(b, b', h, false, false)
  {
    hide IndexOk, QuotasOk;
    WaitForFilesystemKeepsValid(b, k.spaceID, k.filesystemID, FilesystemActive);
  }

  lemma CreateFrame(b: Backend, spaceID: int, options: CreateOptions, h: Handle)
    requires Valid(b)
    ensures var b' := CreateFilesystem(b, spaceID, options).0;
            Valid(b') && Framed(b, b', h, false, false)
  {
    hide QuotasOk;
    CreateKeepsValid(b, spaceID, options);
  }

  lemma DeleteFrame(b: Backend, k: Handle, h: Handle)
    requires Valid(b)
    ensures var b' := DeleteFilesystem(b, k.spaceID, k.filesystemID).0;
            Valid(b') && Framed(b, b', h, false, false)
  {
    hide IndexOk, QuotasOk;
    DeleteKeepsValid(b, k.spaceID, k.filesystemID);
  }

  lemma LockedStepFrame(b: Backend, req: Request, at: LockedStage, d: Delivery, h: Handle)
    requires Valid(b)
    ensures var b' := LockedStep(b, req, at, d).0;
            Valid(b') && Framed(b, b', h, TouchesPolicy(Locked(at), h), TouchesCapacity(Locked(at), h))
  {
    hide IndexOk, QuotasOk;
    match at
    case WritePolicy(k, update) => UpdatePolicyFrame(b, k, update, h);
    case AwaitPolicy(k) => WaitForPolicyFrame(b, k, h);
    case WriteQuota(k, capacity) => UpdateFilesystemFrame(b, k, capacity, h);
    case _ =>
  }

  lemma CreateStepFrame(env: Env, b: Backend, req: Request, parameters: Parameters, step: CreateStage, d: Delivery,
                        h: Handle)
    requires Valid(b) && req.CreateRequest?
    ensures var b' := CreateStep(env, b, req, parameters, step, d).0;
            Valid(b') && Framed(b, b', h, TouchesPolicy(Provisioning(step), h), false)
  {
    hide IndexOk, QuotasOk;
    match step
    case CallCreate(spaceID, _) => CreateFrame(b, spaceID, OptionsFor(env, req, parameters), h);
    case AwaitCreated(k, _) => WaitForFilesystemFrame(b, k, h);
    case AwaitExisting(k, _) => WaitForFilesystemFrame(b, k, h);
    case WriteSquash(f, _, update) => UpdatePolicyFrame(b, Handle(f.spaceID, f.id), update, h);
    case AwaitSquash(f, _) => WaitForPolicyFrame(b, Handle(f.spaceID, f.id), h);
    case _ =>
  }

  lemma LooseStepFrame(env: Env, b: Backend, stage: LooseStage, d: Delivery, h: Handle)
    requires Valid(b)
    ensures var b' := LooseStep(env, b, stage, d).0;
            Valid(b') && Framed(b, b', h, false, false)
  {
    hide IndexOk, QuotasOk;
    if stage.CallDelete? {
      DeleteFrame(b, stage.h, h);
    }
  }

  lemma StepFrame(env: Env, w: World, req: Request, pc: Pc, d: Delivery, h: Handle)
    requires Valid(w.b)
    ensures var b' := StepRpc(env, w, req, pc, d).0.b;
            Valid(b') && Framed(w.b, b', h, TouchesPolicy(pc, h), TouchesCapacity(pc, h))
  {
    hide IndexOk, QuotasOk;
    match pc
    case Locked(at) => LockedStepFrame(w.b, req, at, d, h);
    case Loose(stage) => LooseStepFrame(env, w.b, stage, d, h);
    case Provisioning(step) =>
      if req.CreateRequest? && req.parameters.Some? {
        CreateStepFrame(env, w.b, req, req.parameters.value, step, d, h);
      }
    case _ =>
  }

  lemma ApplyFrame(env: Env, s: System, e: Event, h: Handle)
    requires Valid(s.w.b)
    ensures Framed(s.w.b, Apply(env, s, e).w.b, h, true, true)
  {
    hide IndexOk, QuotasOk;
    if e.Step? && e.id in s.rpcs {
      StepFrame(env, s.w, s.rpcs[e.id].req, s.rpcs[e.id].pc, e.d, h);
    }
  }

  lemma LiveIsBorn(b: Backend, h: Handle)
    requires Valid(b) && Live(b, h)
    ensures !Unborn(b, h)
  {
    hide QuotasOk;
  }

  // A filesystem that is live in the end was live or not yet created all along;
  // its label never changes, and its capacity never shrinks.
  lemma {:induction false} History(env: Env, s: System, events: seq<Event>, h: Handle)
    requires Valid(s.w.b) && Live(Run(env, s, events).w.b, h)
    ensures Live(s.w.b, h) || Unborn(s.w.b, h)
    ensures Live(s.w.b, h) ==>
              var f, f' := s.w.b.filesystems[h.filesystemID], Run(env, s, events).w.b.filesystems[h.filesystemID];
              f'.nfsLabel == f.nfsLabel && f.maxCapacity <= f'.maxCapacity
    decreases events
  {
    hide IndexOk, QuotasOk;
    if events != [] {
      var s1 := Apply(env, s, events[0]);
      History(env, s1, events[1..], h);
      ApplyFrame(env, s, events[0], h);
      if Live(s.w.b, h) {
        LiveIsBorn(s.w.b, h);
      }
    }
  }

  // What the stage of an RPC says about its request

  predicate ChangesPolicy(req: Request) {
    req.PublishRequest? || req.UnpublishRequest?
  }

  function NodeOf(req: Request): int
    requires ChangesPolicy(req)
  {
    match Atoi(req.nodeID)
    case Some(node) => node
    case None => 0
  }

  // A publish or unpublish that passes all checks on its own fields, for h
  predicate Addresses(req: Request, h: Handle) {
    && ChangesPolicy(req) && ParseVolumeHandle(req.volumeID) == Some(h) && Atoi(req.nodeID).Some?
    && (req.PublishRequest? ==> req.capabilitySupported)
  }

  // The update of a publish lists its node; an unpublish has found its node listed.
  ghost predicate Pending(req: Request, update: PolicyUpdate)
    requires ChangesPolicy(req)
  {
    && update.linodeIDs.Some?
    && if req.PublishRequest? then NodeOf(req) in update.linodeIDs.value else NodeOf(req) > 0
  }

  predicate Expands(req: Request, h: Handle) {
    req.ExpandRequest? && ParseVolumeHandle(req.volumeID) == Some(h) && ExpandRangeValid(req.range)
  }

  ghost predicate Fits(req: Request, pc: Pc) {
    match pc
    case Locked(ReadPolicy(k, node)) => Addresses(req, k) && node == NodeOf(req)
    case Locked(WritePolicy(k, update)) => Addresses(req, k) && Pending(req, update)
    case Locked(AwaitPolicy(k)) => Addresses(req, k) && NodeOf(req) > 0
    case Locked(ReadQuota(k)) => Expands(req, k)
    case Locked(WriteQuota(k, capacity)) => Expands(req, k) && capacity == RequestedCapacity(req.range)
    case Locked(Unlock(VolumePublished)) => req.PublishRequest? && req.capabilitySupported && NodeOf(req) > 0
    case Locked(Unlock(VolumeExpanded(_))) => req.ExpandRequest? && ExpandRangeValid(req.range)
    case Locked(Unlock(_)) => LocksVolume(req)
    case Loose(CallDelete(k)) => req.DeleteRequest? && ParseVolumeHandle(req.volumeID) == Some(k)
    case _ => true
  }

  lemma ReadPolicyFits(b: Backend, req: Request, k: Handle, node: int, d: Delivery)
    requires Valid(b) && Fits(req, Locked(ReadPolicy(k, node)))
    ensures Fits(req, Locked(ReadPolicyStep(b, req, k, node, d)))
  {
    hide IndexOk, QuotasOk;
    if Live(b, k) {
      assert PolicyOk(b, b.policies[k.filesystemID]);
      DecisionFits(req, k, node, b.policies[k.filesystemID]);
    }
  }

  lemma DecisionFits(req: Request, k: Handle, node: int, policy: Policy)
    requires Addresses(req, k) && node == NodeOf(req) && forall id | id in policy.acl :: id > 0
    ensures Fits(req, Locked(DecidePolicy(req, k, node, policy)))
  {
    NonZeroKeepsAll(policy.acl);
    assert node in With(policy.acl, node);
  }

  // The API accepts no update that publishes to an impossible node.
  lemma WritePolicyFits(b: Backend, req: Request, k: Handle, update: PolicyUpdate, d: Delivery)
    requires Valid(b) && Fits(req, Locked(WritePolicy(k, update)))
    ensures Fits(req, Locked(LockedStep(b, req, WritePolicy(k, update), d).1))
  {
    hide IndexOk, QuotasOk, ParseVolumeHandle, Atoi;
  }

  lemma LockedStepFits(b: Backend, req: Request, at: LockedStage, d: Delivery)
    requires Valid(b) && Fits(req, Locked(at)) && !at.Unlock?
    ensures Fits(req, Locked(LockedStep(b, req, at, d).1))
  {
    hide IndexOk, QuotasOk, UpdatePolicy, WaitForPolicy, UpdateFilesystem, ListQuotas, ParseVolumeHandle, Atoi;
    match at
    case ReadPolicy(k, node) => ReadPolicyFits(b, req, k, node, d);
    case WritePolicy(k, update) => WritePolicyFits(b, req, k, update, d);
    case _ =>
  }

  lemma BeginFits(w: World, req: Request, d: Delivery)
    ensures Fits(req, BeginStep(w, req, d).1)
  {
  }

  lemma StepFits(env: Env, w: World, req: Request, pc: Pc, d: Delivery)
    requires Valid(w.b) && Fits(req, pc)
    ensures Fits(req, StepRpc(env, w, req, pc, d).1)
  {
    hide IndexOk, QuotasOk;
    match pc
    case Begin => BeginFits(w, req, d);
    case Locked(at) =>
      if !at.Unlock? {
        LockedStepFits(w.b, req, at, d);
      }
    case Provisioning(step) =>
      if req.CreateRequest? && req.parameters.Some? {
        CreateStepIsUnlocked(env, w.b, req, req.parameters.value, step, d);
      }
    case _ =>
  }

  lemma CreateStepIsUnlocked(env: Env, b: Backend, req: Request, parameters: Parameters, step: CreateStage, d: Delivery)
    requires Valid(b) && req.CreateRequest?
    ensures !CreateStep(env, b, req, parameters, step, d).1.Locked?
  {
  }
}
