// What one publish, unpublish, expand or delete does when nothing disturbs it:
// the answer and the world after it.
module UndisturbedCalls {
  import opened Wrappers
  import opened Text
  import opened Handles
  import opened NfsModel
  import opened LinodeContract
  import opened Transport
  import opened AccessPolicies
  import opened Status
  import opened ControllerSteps
  import opened VolumeFrames
  import opened PolicyKnowledge
  import opened QuotaSafety

  // The RPC, standing at pc in the world w, ends in w' with this answer.
  ghost predicate EndsIn(env: Env, w: World, req: Request, pc: Pc, steps: nat, w': World, response: Response)
    requires Valid(w.b)
  {
    Alone(env, w, req, pc, [], steps) == (w', Returned(response))
  }

  lemma AfterStep(env: Env, w: World, req: Request, pc: Pc, steps: nat, w1: World, pc1: Pc, w': World,
                  response: Response)
    requires Valid(w.b) && steps > 0 && !pc.Returned? && StepRpc(env, w, req, pc, Delivered) == (w1, pc1)
    requires Valid(w1.b) && EndsIn(env, w1, req, pc1, steps - 1, w', response)
    ensures EndsIn(env, w, req, pc, steps, w', response)
  {
    hide IndexOk, QuotasOk, StepRpc, Alone;
    AloneStep(env, w, req, pc, [], steps);
  }

  // The world with this key released
  function Released(w: World, key: string): World {
    w.(locks := w.locks - {key})
  }

  lemma UnlockEnds(env: Env, w: World, req: Request, response: Response, steps: nat)
    requires Valid(w.b) && LocksVolume(req) && steps >= 1
    ensures EndsIn(env, w, req, Locked(Unlock(response)), steps, Released(w, req.volumeID), response)
  {
    hide IndexOk, QuotasOk, Alone;
    AloneStep(env, w, req, Locked(Unlock(response)), [], steps);
    AloneDone(env, Released(w, req.volumeID), req, Returned(response), [], steps - 1);
  }

  lemma AwaitEnds(env: Env, w: World, req: Request, h: Handle, steps: nat)
    requires Valid(w.b) && ChangesPolicy(req) && Live(w.b, h) && steps >= 2
    ensures var after := WithPolicy(w, h.filesystemID, w.b.policies[h.filesystemID].(status := PolicyActive));
            EndsIn(env, w, req, Locked(AwaitPolicy(h)), steps, Released(after, req.volumeID), Done(req))
  {
    hide IndexOk, QuotasOk;
    var after := WithPolicy(w, h.filesystemID, w.b.policies[h.filesystemID].(status := PolicyActive));
    WaitForPolicyKeepsValid(w.b, h.spaceID, h.filesystemID, PolicyActive);
    UnlockEnds(env, after, req, Done(req), steps - 1);
    AfterStep(env, w, req, Locked(AwaitPolicy(h)), steps, after, Locked(Unlock(Done(req))),
              Released(after, req.volumeID), Done(req));
  }

  // A node that the API accepts, if it is to be inserted
  predicate Admissible(b: Backend, req: Request)
    requires ChangesPolicy(req)
  {
    req.UnpublishRequest? || (NodeOf(req) > 0 && NodeOf(req) in b.linodes)
  }

  // The policy after the call. If it needs no change it keeps even its status.
  function PolicyAfter(req: Request, p: Policy): Policy
    requires ChangesPolicy(req)
  {
    if Effective(req, p) then p
    else if req.PublishRequest? then p.(enabled := true, acl := With(p.acl, NodeOf(req)), status := PolicyActive)
    else p.(acl := Without(p.acl, NodeOf(req)), status := PolicyActive)
  }

  lemma WriteEnds(env: Env, w: World, req: Request, h: Handle, steps: nat)
    requires Valid(w.b) && ChangesPolicy(req) && Live(w.b, h) && Admissible(w.b, req) && steps >= 3
    requires !Effective(req, w.b.policies[h.filesystemID])
    ensures var p := w.b.policies[h.filesystemID];
            EndsIn(env, w, req, Locked(WritePolicy(h, Intended(req, p))), steps,
                 Released(WithPolicy(w, h.filesystemID, PolicyAfter(req, p)), req.volumeID), Done(req))
  {
    hide IndexOk, QuotasOk, Alone, ParseVolumeHandle, Atoi;
    var p := w.b.policies[h.filesystemID];
    var update := Intended(req, p);
    var w1 := w.(b := UpdatePolicy(w.b, h.spaceID, h.filesystemID, update).0);
    IntendedWrite(w.b, req, h);
    UpdatePolicyKeepsValid(w.b, h.spaceID, h.filesystemID, update);
    AwaitEnds(env, w1, req, h, steps - 1);
    var after := Released(WithPolicy(w, h.filesystemID, PolicyAfter(req, p)), req.volumeID);
    assert Released(WithPolicy(w1, h.filesystemID, w1.b.policies[h.filesystemID].(status := PolicyActive)),
           req.volumeID) == after;
    AfterStep(env, w, req, Locked(WritePolicy(h, update)), steps, w1, Locked(AwaitPolicy(h)), after, Done(req));
  }

  lemma ReadEnds(env: Env, w: World, req: Request, h: Handle, steps: nat)
    requires Valid(w.b) && ChangesPolicy(req) && Live(w.b, h) && Admissible(w.b, req) && steps >= 4
    ensures var p := w.b.policies[h.filesystemID];
            EndsIn(env, w, req, Locked(ReadPolicy(h, NodeOf(req))), steps,
                 Released(WithPolicy(w, h.filesystemID, PolicyAfter(req, p)), req.volumeID), Done(req))
  {
    hide IndexOk, QuotasOk;
    var p := w.b.policies[h.filesystemID];
    var after := Released(WithPolicy(w, h.filesystemID, PolicyAfter(req, p)), req.volumeID);
    ReadDecides(env, w, req, h);
    if Effective(req, p) {
      assert WithPolicy(w, h.filesystemID, p) == w;
      UnlockEnds(env, w, req, Done(req), steps - 1);
    } else {
      WriteEnds(env, w, req, h, steps - 1);
    }
    AfterStep(env, w, req, Locked(ReadPolicy(h, NodeOf(req))), steps, w, Decided(req, h, p), after, Done(req));
  }

  function Decided(req: Request, h: Handle, p: Policy): Pc
    requires ChangesPolicy(req)
  {
    Locked(if Effective(req, p) then Unlock(Done(req)) else WritePolicy(h, Intended(req, p)))
  }

  lemma ReadDecides(env: Env, w: World, req: Request, h: Handle)
    requires Valid(w.b) && ChangesPolicy(req) && Live(w.b, h)
    ensures StepRpc(env, w, req, Locked(ReadPolicy(h, NodeOf(req))), Delivered) ==
            (w, Decided(req, h, w.b.policies[h.filesystemID]))
  {
    var p := w.b.policies[h.filesystemID];
    NonZeroKeepsAll(p.acl);
    assert LockedStep(w.b, req, ReadPolicy(h, NodeOf(req)), Delivered) ==
           (w.b, DecidePolicy(req, h, NodeOf(req), p));
  }

  // A well-formed request for a live filesystem whose key is free
  ghost predicate Ready(w: World, req: Request, h: Handle) {
    && LocksVolume(req) && req.volumeID != "" && req.volumeID !in w.locks
    && ParseVolumeHandle(req.volumeID) == Some(h) && Live(w.b, h)
    && (req.PublishRequest? ==> req.capabilitySupported)
    && (ChangesPolicy(req) ==> req.nodeID != "" && Atoi(req.nodeID).Some?)
    && (req.ExpandRequest? ==> ExpandRangeValid(req.range))
  }

  // A publish inserts its node and enables the policy, an unpublish removes its
  // node; nothing else changes, and the lock is free again.
  lemma PolicyCallAnswer(env: Env, w: World, req: Request, h: Handle, steps: nat)
    requires Valid(w.b) && ChangesPolicy(req) && Ready(w, req, h) && Admissible(w.b, req) && steps >= MAX_STEPS
    ensures EndsIn(env, w, req, Begin, steps,
            WithPolicy(w, h.filesystemID, PolicyAfter(req, w.b.policies[h.filesystemID])), Done(req))
  {
    hide IndexOk, QuotasOk;
    var w1 := w.(locks := w.locks + {req.volumeID});
    ReadEnds(env, w1, req, h, steps - 1);
    var after := WithPolicy(w, h.filesystemID, PolicyAfter(req, w.b.policies[h.filesystemID]));
    assert Released(WithPolicy(w1, h.filesystemID, PolicyAfter(req, w.b.policies[h.filesystemID])), req.volumeID) ==
           after by {
      assert w1.locks - {req.volumeID} == w.locks;
    }
    AcquiresPolicy(env, w, req, h);
    AfterStep(env, w, req, Begin, steps, w1, Locked(ReadPolicy(h, NodeOf(req))), after, Done(req));
  }

  lemma AcquiresPolicy(env: Env, w: World, req: Request, h: Handle)
    requires Valid(w.b) && ChangesPolicy(req) && Ready(w, req, h)
    ensures StepRpc(env, w, req, Begin, Delivered) ==
            (w.(locks := w.locks + {req.volumeID}), Locked(ReadPolicy(h, NodeOf(req))))
  {
    hide IndexOk, QuotasOk;
  }

  // Unpublishing a freshly published node gives back the list as it was.
  lemma UnpublishUndoesPublish(env: Env, w: World, publish: Request, unpublish: Request, h: Handle, steps: nat)
    requires Valid(w.b) && publish.PublishRequest? && unpublish.UnpublishRequest? && steps >= MAX_STEPS
    requires Ready(w, publish, h) && Ready(w, unpublish, h) && Admissible(w.b, publish)
    requires NodeOf(publish) == NodeOf(unpublish) && NodeOf(publish) !in w.b.policies[h.filesystemID].acl
    ensures var (w1, pc1) := Alone(env, w, publish, Begin, [], steps);
            && pc1 == Returned(VolumePublished) && Valid(w1.b)
            && var (w2, pc2) := Alone(env, w1, unpublish, Begin, [], steps);
               && pc2 == Returned(VolumeUnpublished)
               && w2 == WithPolicy(w, h.filesystemID,
                  w.b.policies[h.filesystemID].(enabled := true, status := PolicyActive))
  {
    var p := w.b.policies[h.filesystemID];
    PolicyCallAnswer(env, w, publish, h, steps);
    AloneKeepsValid(env, w, publish, Begin, [], steps);
    UnpublishUndoes(env, w, WithPolicy(w, h.filesystemID, PolicyAfter(publish, p)), publish, unpublish, h, steps);
  }

  lemma UnpublishUndoes(env: Env, w: World, w1: World, publish: Request, unpublish: Request, h: Handle, steps: nat)
    requires Valid(w.b) && Valid(w1.b) && publish.PublishRequest? && unpublish.UnpublishRequest? && steps >= MAX_STEPS
    requires Ready(w, unpublish, h) && NodeOf(publish) == NodeOf(unpublish)
    requires var p := w.b.policies[h.filesystemID];
             NodeOf(publish) !in p.acl && w1 == WithPolicy(w, h.filesystemID, PolicyAfter(publish, p))
    ensures EndsIn(env, w1, unpublish, Begin, steps,
                 WithPolicy(w, h.filesystemID,
                   w.b.policies[h.filesystemID].(enabled := true, status := PolicyActive)), VolumeUnpublished)
  {
    hide IndexOk, QuotasOk;
    var p := w.b.policies[h.filesystemID];
    var restored := p.(enabled := true, status := PolicyActive);
    WithoutUndoesWith(p.acl, NodeOf(publish));
    assert NodeOf(publish) in With(p.acl, NodeOf(publish));
    assert PolicyAfter(unpublish, PolicyAfter(publish, p)) == restored;
    assert WithPolicy(w1, h.filesystemID, restored) == WithPolicy(w, h.filesystemID, restored);
    PolicyCallAnswer(env, w1, unpublish, h, steps);
  }

  // Expanding

  function Resized(w: World, h: Handle, capacity: int): World {
    w.(b := UpdateFilesystem(w.b, h.spaceID, h.filesystemID, Some(capacity)).0)
  }

  // The world after an expand, and its answer
  function ExpandOutcome(w: World, h: Handle, current: int, range: Option<CapacityRange>): (World, Response) {
    match DecideExpand(current, range)
    case KeepCapacity => (w, VolumeExpanded(current))
    case RejectShrink => (w, Error(InvalidArgument))
    case Resize(capacity) => (Resized(w, h, capacity), VolumeExpanded(capacity))
  }

  lemma ResizeEnds(env: Env, w: World, req: Request, h: Handle, capacity: int, steps: nat)
    requires Valid(w.b) && req.ExpandRequest? && Live(w.b, h) && steps >= 2
    requires w.b.filesystems[h.filesystemID].maxCapacity < capacity
    ensures EndsIn(env, w, req, Locked(WriteQuota(h, capacity)), steps,
                 Released(Resized(w, h, capacity), req.volumeID), VolumeExpanded(capacity))
  {
    hide IndexOk, QuotasOk;
    var w1 := Resized(w, h, capacity);
    UpdateFilesystemKeepsValid(w.b, h.spaceID, h.filesystemID, Some(capacity));
    UnlockEnds(env, w1, req, VolumeExpanded(capacity), steps - 1);
    AfterStep(env, w, req, Locked(WriteQuota(h, capacity)), steps, w1, Locked(Unlock(VolumeExpanded(capacity))),
              Released(w1, req.volumeID), VolumeExpanded(capacity));
  }

  lemma QuotaEnds(env: Env, w: World, req: Request, h: Handle, steps: nat)
    requires Valid(w.b) && req.ExpandRequest? && Live(w.b, h) && steps >= 3
    ensures var (after, response) := ExpandOutcome(w, h, w.b.filesystems[h.filesystemID].maxCapacity, req.range);
            EndsIn(env, w, req, Locked(ReadQuota(h)), steps, Released(after, req.volumeID), response)
  {
    hide IndexOk, QuotasOk;
    var current := w.b.filesystems[h.filesystemID].maxCapacity;
    var (after, response) := ExpandOutcome(w, h, current, req.range);
    QuotaIsUnique(w.b, h.filesystemID);
    match DecideExpand(current, req.range)
    case Resize(capacity) =>
      ResizeEnds(env, w, req, h, capacity, steps - 1);
      AfterStep(env, w, req, Locked(ReadQuota(h)), steps, w, Locked(WriteQuota(h, capacity)),
                Released(after, req.volumeID), response);
    case _ =>
      UnlockEnds(env, w, req, response, steps - 1);
      AfterStep(env, w, req, Locked(ReadQuota(h)), steps, w, Locked(Unlock(response)),
                Released(after, req.volumeID), response);
  }

  // An expand with a valid range succeeds exactly when there is no limit or the
  // current capacity is not above it. The answer is then the larger of the
  // current and the required capacity, lies in the range, and is the capacity of
  // the filesystem and of its root quota; otherwise nothing has changed.
  lemma ExpandCallAnswer(env: Env, w: World, req: Request, h: Handle, steps: nat)
    requires Valid(w.b) && req.ExpandRequest? && Ready(w, req, h) && steps >= MAX_STEPS
    requires w.b.filesystems[h.filesystemID].maxCapacity >= 0
    ensures var current, required, limit := w.b.filesystems[h.filesystemID].maxCapacity, Required(req.range),
            Limit(req.range);
            var (w', pc') := Alone(env, w, req, Begin, [], steps);
            var result := if required <= current then current else required;
            && Valid(w'.b) && Live(w'.b, h) && w'.locks == w.locks
            && if limit == 0 || current <= limit then
                 && pc' == Returned(VolumeExpanded(result)) && required <= result && (limit == 0 || result <= limit)
                 && w'.b.filesystems[h.filesystemID].maxCapacity == result && RootCapacity(w'.b, h) == Some(result)
               else pc' == Returned(Error(InvalidArgument)) && w' == w
  {
    hide IndexOk, QuotasOk;
    var current := w.b.filesystems[h.filesystemID].maxCapacity;
    var w1 := w.(locks := w.locks + {req.volumeID});
    QuotaEnds(env, w1, req, h, steps - 1);
    var (after, response) := ExpandOutcome(w, h, current, req.range);
    assert Released(ExpandOutcome(w1, h, current, req.range).0, req.volumeID) == after by {
      assert w1.locks - {req.volumeID} == w.locks;
    }
    AfterStep(env, w, req, Begin, steps, w1, Locked(ReadQuota(h)), after, response);
    OutcomeInRange(w, h, req.range);
  }

  lemma OutcomeInRange(w: World, h: Handle, range: Option<CapacityRange>)
    requires Valid(w.b) && Live(w.b, h) && ExpandRangeValid(range) && w.b.filesystems[h.filesystemID].maxCapacity >= 0
    ensures var current, required, limit := w.b.filesystems[h.filesystemID].maxCapacity, Required(range), Limit(range);
            var (w', response) := ExpandOutcome(w, h, current, range);
            var result := if required <= current then current else required;
            && Valid(w'.b) && Live(w'.b, h) && w'.locks == w.locks
            && if limit == 0 || current <= limit then
                 && response == VolumeExpanded(result) && required <= result && (limit == 0 || result <= limit)
                 && w'.b.filesystems[h.filesystemID].maxCapacity == result && RootCapacity(w'.b, h) == Some(result)
               else response == Error(InvalidArgument) && w' == w
  {
    hide IndexOk, QuotasOk;
    var current := w.b.filesystems[h.filesystemID].maxCapacity;
    ExpandAnswer(current, range);
    var w' := ExpandOutcome(w, h, current, range).0;
    if DecideExpand(current, range).Resize? {
      UpdateFilesystemKeepsValid(w.b, h.spaceID, h.filesystemID, Some(RequestedCapacity(range)));
    }
    RootCapacityIsCapacity(w'.b, h);
  }

  // Deleting

  // A delete of any non-empty volume ID succeeds. Afterwards the filesystem is
  // gone, its name is free again, all others are as before, and a second delete
  // succeeds without any change.
  lemma DeleteCallAnswer(env: Env, w: World, volumeID: string, steps: nat)
    requires Valid(w.b) && volumeID != "" && steps >= MAX_STEPS
    ensures var (w', pc') := Alone(env, w, DeleteRequest(volumeID), Begin, [], steps);
            && pc' == Returned(VolumeDeleted) && Valid(w'.b) && w'.locks == w.locks
            && Alone(env, w', DeleteRequest(volumeID), Begin, [], steps) == (w', pc')
            && (match ParseVolumeHandle(volumeID)
                case None => w' == w
                case Some(h) => Deleted(w.b, w'.b, h))
  {
    match ParseVolumeHandle(volumeID)
    case None =>
    case Some(h) =>
      DeleteEnds(env, w, volumeID, h, steps);
      DeletionRemoves(w.b, h);
      var w' := w.(b := DeleteFilesystem(w.b, h.spaceID, h.filesystemID).0);
      DeleteEnds(env, w', volumeID, h, steps);
  }

  predicate Deleted(b: Backend, b': Backend, h: Handle) {
    && !Exists(b', h.spaceID, h.filesystemID)
    && (Exists(b, h.spaceID, h.filesystemID) ==>
          FilesystemName(b.spaceID, b.filesystems[h.filesystemID].nfsLabel) !in b'.filesystemByName)
    && (!Exists(b, h.spaceID, h.filesystemID) ==> b' == b)
    && forall id | id in b.filesystems && Handle(b.spaceID, id) != h ::
         id in b'.filesystems && b'.filesystems[id] == b.filesystems[id]
         && id in b.policies && id in b'.policies && b'.policies[id] == b.policies[id]
  }

  lemma DeletionRemoves(b: Backend, h: Handle)
    requires Valid(b)
    ensures var b' := DeleteFilesystem(b, h.spaceID, h.filesystemID).0;
            Valid(b') && Deleted(b, b', h) && DeleteFilesystem(b', h.spaceID, h.filesystemID).0 == b'
  {
    DeleteKeepsValid(b, h.spaceID, h.filesystemID);
  }

  lemma DeleteEnds(env: Env, w: World, volumeID: string, h: Handle, steps: nat)
    requires Valid(w.b) && volumeID != "" && ParseVolumeHandle(volumeID) == Some(h) && steps >= 2
    ensures var w' := w.(b := DeleteFilesystem(w.b, h.spaceID, h.filesystemID).0);
            Valid(w'.b) && EndsIn(env, w, DeleteRequest(volumeID), Begin, steps, w', VolumeDeleted)
  {
    var req := DeleteRequest(volumeID);
    var w' := w.(b := DeleteFilesystem(w.b, h.spaceID, h.filesystemID).0);
    DeleteKeepsValid(w.b, h.spaceID, h.filesystemID);
    assert StepRpc(env, w, req, Loose(CallDelete(h)), Delivered) == (w', Returned(VolumeDeleted));
    assert EndsIn(env, w', req, Returned(VolumeDeleted), steps - 2, w', VolumeDeleted);
    AfterStep(env, w, req, Loose(CallDelete(h)), steps - 1, w', Returned(VolumeDeleted), w', VolumeDeleted);
    AfterStep(env, w, req, Begin, steps, w, Loose(CallDelete(h)), w', VolumeDeleted);
  }
}
