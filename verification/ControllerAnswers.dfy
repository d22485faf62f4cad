// What one RPC on an existing volume answers when nothing disturbs it, for every
// request and every state, by the fields of both.
module ControllerAnswers {
  import opened Wrappers
  import opened Text
  import opened Handles
  import opened NfsModel
  import opened MountTargets
  import opened LinodeContract
  import opened Transport
  import opened AccessPolicies
  import opened Status
  import opened ControllerSteps
  import opened VolumeFrames
  import opened PolicyKnowledge
  import opened PolicySafety
  import opened QuotaSafety
  import opened StepAnswers
  import opened CreatedVolumes
  import opened UndisturbedCalls

  // The whole call, and an answer that changes nothing

  ghost function Call(env: Env, w: World, req: Request, steps: nat): (World, Pc)
    requires Valid(w.b)
  {
    Alone(env, w, req, Begin, [], steps)
  }

  ghost predicate Refused(env: Env, w: World, req: Request, steps: nat, code: Code)
    requires Valid(w.b)
  {
    Call(env, w, req, steps) == (w, Returned(Error(code)))
  }

  lemma EndsAtOnce(env: Env, w: World, req: Request, steps: nat, w': World, response: Response)
    requires Valid(w.b) && Valid(w'.b) && steps >= 1
    requires StepRpc(env, w, req, Begin, Delivered) == (w', Returned(response))
    ensures EndsIn(env, w, req, Begin, steps, w', response)
  {
    hide IndexOk, QuotasOk, StepRpc, Alone;
    AloneStep(env, w, req, Begin, [], steps);
    AloneDone(env, w', req, Returned(response), [], steps - 1);
  }

  // An RPC that takes its lock and ends with its first stage at
  lemma EndsUnderLock(env: Env, w: World, req: Request, at: LockedStage, steps: nat, response: Response)
    requires Valid(w.b) && LocksVolume(req) && req.volumeID !in w.locks && steps >= 3
    requires StepRpc(env, w, req, Begin, Delivered) == (w.(locks := w.locks + {req.volumeID}), Locked(at))
    requires at == Unlock(response)
             || (!at.Unlock? && StepRpc(env, w.(locks := w.locks + {req.volumeID}), req, Locked(at), Delivered) ==
                  (w.(locks := w.locks + {req.volumeID}), Locked(Unlock(response))))
    ensures EndsIn(env, w, req, Begin, steps, w, response)
  {
    hide IndexOk, QuotasOk, StepRpc, Alone;
    var w1 := w.(locks := w.locks + {req.volumeID});
    assert Released(w1, req.volumeID) == w by {
      assert w1.locks - {req.volumeID} == w.locks;
    }
    UnlockEnds(env, w1, req, response, steps - 2);
    UnlockEnds(env, w1, req, response, steps - 1);
    if !at.Unlock? {
      AfterStep(env, w1, req, Locked(at), steps - 1, w1, Locked(Unlock(response)), w, response);
    }
    AfterStep(env, w, req, Begin, steps, w1, Locked(at), w, response);
  }

  // Publish and unpublish

  // The fields of a publish or unpublish are good, and its key is free.
  predicate Admitted(w: World, req: Request) {
    ChangesPolicy(req) && WantsKey(req) && req.volumeID !in w.locks
  }

  lemma MalformedIsRefused(env: Env, w: World, req: Request, steps: nat)
    requires Valid(w.b) && Admitted(w, req) && steps >= MAX_STEPS
    requires ParseVolumeHandle(req.volumeID).None? || Atoi(req.nodeID).None?
    ensures Refused(env, w, req, steps, InvalidArgument)
  {
    hide IndexOk, QuotasOk, Alone, ParseVolumeHandle, Atoi;
    EndsUnderLock(env, w, req, Unlock(Error(InvalidArgument)), steps, Error(InvalidArgument));
  }

  lemma ReadsFirst(env: Env, w: World, req: Request, h: Handle)
    requires Valid(w.b) && Admitted(w, req) && ParseVolumeHandle(req.volumeID) == Some(h) && Atoi(req.nodeID).Some?
    ensures StepRpc(env, w, req, Begin, Delivered) ==
            (w.(locks := w.locks + {req.volumeID}), Locked(ReadPolicy(h, NodeOf(req))))
    ensures Addresses(req, h) && NodeOf(req) == Atoi(req.nodeID).value
  {
    hide IndexOk, QuotasOk, ParseVolumeHandle, Atoi;
  }

  lemma MissingIsAnswered(env: Env, w: World, req: Request, h: Handle, steps: nat)
    requires Valid(w.b) && Admitted(w, req) && ParseVolumeHandle(req.volumeID) == Some(h) && Atoi(req.nodeID).Some?
    requires !Live(w.b, h) && steps >= MAX_STEPS
    ensures Call(env, w, req, steps) ==
            (w, Returned(if req.UnpublishRequest? then VolumeUnpublished else Error(NotFoundCode)))
  {
    hide IndexOk, QuotasOk, Alone, ParseVolumeHandle, Atoi, StepRpc;
    var w1 := w.(locks := w.locks + {req.volumeID});
    ReadsFirst(env, w, req, h);
    MissingIsNotFound(env, w1, Rpc(req, Locked(ReadPolicy(h, NodeOf(req)))), h);
    EndsUnderLock(env, w, req, ReadPolicy(h, NodeOf(req)), steps,
                  if req.UnpublishRequest? then VolumeUnpublished else Error(NotFoundCode));
  }

  // A node that the API does not accept: an impossible ID, or an unknown Linode
  function Rejection(node: int): Code {
    if node <= 0 then InvalidArgument else NotFoundCode
  }

  lemma UnknownNodeIsRefused(env: Env, w: World, req: Request, h: Handle, steps: nat)
    requires Valid(w.b) && Admitted(w, req) && ParseVolumeHandle(req.volumeID) == Some(h) && Atoi(req.nodeID).Some?
    requires Live(w.b, h) && !Admissible(w.b, req) && steps >= MAX_STEPS
    ensures Refused(env, w, req, steps, Rejection(NodeOf(req)))
  {
    hide IndexOk, QuotasOk, Alone, ParseVolumeHandle, Atoi, StepRpc;
    var w1, p := w.(locks := w.locks + {req.volumeID}), w.b.policies[h.filesystemID];
    var read, write := Locked(ReadPolicy(h, NodeOf(req))), Locked(WritePolicy(h, Intended(req, p)));
    var response := Error(Rejection(NodeOf(req)));
    ReadsFirst(env, w, req, h);
    ReadDecides(env, w1, req, h);
    assert PolicyOk(w.b, p);
    WriteIsRejected(env, w1, req, h);
    assert Released(w1, req.volumeID) == w by {
      assert w1.locks - {req.volumeID} == w.locks;
    }
    UnlockEnds(env, w1, req, response, steps - 3);
    AfterStep(env, w1, req, write, steps - 2, w1, Locked(Unlock(response)), w, response);
    AfterStep(env, w1, req, read, steps - 1, w1, write, w, response);
    AfterStep(env, w, req, Begin, steps, w1, read, w, response);
  }

  lemma WriteIsRejected(env: Env, w: World, req: Request, h: Handle)
    requires Valid(w.b) && Live(w.b, h) && req.PublishRequest? && !Admissible(w.b, req)
    ensures StepRpc(env, w, req, Locked(WritePolicy(h, Intended(req, w.b.policies[h.filesystemID]))), Delivered) ==
            (w, Locked(Unlock(Error(Rejection(NodeOf(req))))))
  {
    hide IndexOk, QuotasOk, ParseVolumeHandle, Atoi;
    var p, n := w.b.policies[h.filesystemID], NodeOf(req);
    assert PolicyOk(w.b, p);
    WithIsInsert(p.acl, n);
    assert n in With(p.acl, n);
  }

  lemma AdmittedIsReady(w: World, req: Request, h: Handle)
    requires Admitted(w, req) && ParseVolumeHandle(req.volumeID) == Some(h) && Atoi(req.nodeID).Some? && Live(w.b, h)
    ensures Ready(w, req, h)
  {
    hide ParseVolumeHandle, Atoi;
  }

  // A publish: every request, every state. It succeeds for a live filesystem and a
  // known Linode, whose node is then listed, once, in the enabled policy.
  lemma PublishAnswer(env: Env, w: World, volumeID: string, nodeID: string, supported: bool, steps: nat)
    requires Valid(w.b) && steps >= MAX_STEPS
    ensures var req := PublishRequest(volumeID, nodeID, supported);
            if volumeID == "" || nodeID == "" || !supported then Refused(env, w, req, steps, InvalidArgument)
            else if volumeID in w.locks then Refused(env, w, req, steps, Aborted)
            else
              match (ParseVolumeHandle(volumeID), Atoi(nodeID))
              case (Some(h), Some(node)) =>
                if !Live(w.b, h) then Refused(env, w, req, steps, NotFoundCode)
                else
                  var p := w.b.policies[h.filesystemID];
                  if node in p.acl && p.enabled then Call(env, w, req, steps) == (w, Returned(VolumePublished))
                  else if node <= 0 then Refused(env, w, req, steps, InvalidArgument)
                  else if node !in w.b.linodes then Refused(env, w, req, steps, NotFoundCode)
                  else
                    var acl := if node in p.acl then p.acl else p.acl + [node];
                    Call(env, w, req, steps) ==
                    (WithPolicy(w, h.filesystemID, p.(enabled := true, acl := acl, status := PolicyActive)),
                     Returned(VolumePublished))
              case _ => Refused(env, w, req, steps, InvalidArgument)
  {
    hide IndexOk, QuotasOk, Alone, ParseVolumeHandle, Atoi, StepRpc;
    var req := PublishRequest(volumeID, nodeID, supported);
    if !WantsKey(req) {
      BadFieldsAreRefused(env, w, req);
      EndsAtOnce(env, w, req, steps, w, Error(InvalidArgument));
    } else if volumeID in w.locks {
      TakenKeyAborts(env, w, req, Delivered);
      EndsAtOnce(env, w, req, steps, w, Error(Aborted));
    } else {
      match (ParseVolumeHandle(volumeID), Atoi(nodeID))
      case (Some(h), Some(node)) =>
        assert node == NodeOf(req);
        if !Live(w.b, h) {
          MissingIsAnswered(env, w, req, h, steps);
        } else {
          var p := w.b.policies[h.filesystemID];
          assert PolicyOk(w.b, p);
          AdmittedIsReady(w, req, h);
          if Admissible(w.b, req) {
            PolicyCallAnswer(env, w, req, h, steps);
            assert WithPolicy(w, h.filesystemID, p) == w;
          } else {
            UnknownNodeIsRefused(env, w, req, h, steps);
          }
        }
      case _ => MalformedIsRefused(env, w, req, steps);
    }
  }

  lemma BadFieldsAreRefused(env: Env, w: World, req: Request)
    requires Valid(w.b) && LocksVolume(req) && !WantsKey(req)
    requires req.UnpublishRequest? ==> req.volumeID == ""
    ensures StepRpc(env, w, req, Begin, Delivered) == (w, Returned(Error(InvalidArgument)))
  {
    hide IndexOk, QuotasOk, ParseVolumeHandle, Atoi;
    EmptyIsNoHandle();
    if req.ExpandRequest? {
      SensibleIsValid(req.range);
    }
  }

  lemma {:induction false} WithoutDropsOne(ids: seq<int>, i: nat)
    requires Distinct(ids) && i < |ids|
    ensures Without(ids, ids[i]) == ids[..i] + ids[i + 1..]
    decreases ids
  {
    var n := |ids| - 1;
    var init := ids[..n];
    if i == n {
      WithoutAbsent(init, ids[n]);
    } else {
      WithoutDropsOne(init, i);
      assert init[..i] == ids[..i] && init[i] == ids[i];
      assert init[i + 1..] + [ids[n]] == ids[i + 1..];
      assert (init[..i] + init[i + 1..]) + [ids[n]] == init[..i] + (init[i + 1..] + [ids[n]]);
      assert ids[n] != ids[i];
    }
  }

  // An unpublish: every request, every state. A node or a filesystem that is not
  // there counts as unpublished; otherwise exactly its node leaves the list.
  lemma UnpublishAnswer(env: Env, w: World, volumeID: string, nodeID: string, steps: nat)
    requires Valid(w.b) && steps >= MAX_STEPS
    ensures var req := UnpublishRequest(volumeID, nodeID);
            if volumeID == "" then Refused(env, w, req, steps, InvalidArgument)
            else if nodeID == "" then Call(env, w, req, steps) == (w, Returned(VolumeUnpublished))
            else if volumeID in w.locks then Refused(env, w, req, steps, Aborted)
            else
              match (ParseVolumeHandle(volumeID), Atoi(nodeID))
              case (Some(h), Some(node)) =>
                if !Live(w.b, h) || node !in w.b.policies[h.filesystemID].acl then
                  Call(env, w, req, steps) == (w, Returned(VolumeUnpublished))
                else
                  var p := w.b.policies[h.filesystemID];
                  exists i | 0 <= i < |p.acl| ::
                    && p.acl[i] == node
                    && Call(env, w, req, steps) ==
                       (WithPolicy(w, h.filesystemID, p.(acl := p.acl[..i] + p.acl[i + 1..], status := PolicyActive)),
                        Returned(VolumeUnpublished))
              case _ => Refused(env, w, req, steps, InvalidArgument)
  {
    hide IndexOk, QuotasOk, Alone, ParseVolumeHandle, Atoi, StepRpc;
    var req := UnpublishRequest(volumeID, nodeID);
    if volumeID == "" {
      BadFieldsAreRefused(env, w, req);
      EndsAtOnce(env, w, req, steps, w, Error(InvalidArgument));
    } else if nodeID == "" {
      NoNodeIsUnpublished(env, w, req);
      EndsAtOnce(env, w, req, steps, w, VolumeUnpublished);
    } else if volumeID in w.locks {
      TakenKeyAborts(env, w, req, Delivered);
      EndsAtOnce(env, w, req, steps, w, Error(Aborted));
    } else {
      match (ParseVolumeHandle(volumeID), Atoi(nodeID))
      case (Some(h), Some(node)) =>
        if !Live(w.b, h) {
          MissingIsAnswered(env, w, req, h, steps);
        } else {
          var p := w.b.policies[h.filesystemID];
          assert PolicyOk(w.b, p) && node == NodeOf(req);
          AdmittedIsReady(w, req, h);
          PolicyCallAnswer(env, w, req, h, steps);
          assert WithPolicy(w, h.filesystemID, p) == w;
          if node in p.acl {
            var i :| 0 <= i < |p.acl| && p.acl[i] == node;
            WithoutDropsOne(p.acl, i);
          }
        }
      case _ => MalformedIsRefused(env, w, req, steps);
    }
  }

  lemma NoNodeIsUnpublished(env: Env, w: World, req: Request)
    requires Valid(w.b) && req.UnpublishRequest? && req.volumeID != "" && req.nodeID == ""
    ensures StepRpc(env, w, req, Begin, Delivered) == (w, Returned(VolumeUnpublished))
  {
    hide IndexOk, QuotasOk, ParseVolumeHandle, Atoi;
  }

  // Expand

  // The capacity after an expand: at least the required one, and never less than
  // before. Without a required capacity a negative one grows to the limit.
  function Expanded(current: int, required: int, limit: int): int {
    if required == 0 && current < 0 then limit else if required <= current then current else required
  }

  // Only the capacity of h has changed, with its root quota.
  ghost predicate OnlyResized(b: Backend, b': Backend, h: Handle, capacity: int)
    requires Valid(b) && Live(b, h)
  {
    && Valid(b') && Live(b', h) && RootCapacity(b', h) == Some(capacity)
    && b' == b.(filesystems := b.filesystems[h.filesystemID := b.filesystems[h.filesystemID].(maxCapacity := capacity)],
                quotas := b'.quotas)
    && b'.quotas.Keys == b.quotas.Keys
    && forall q | q in b.quotas && b.quotas[q].filesystemID != h.filesystemID :: b'.quotas[q] == b.quotas[q]
  }

  lemma ResizeIsOnly(b: Backend, h: Handle, capacity: int)
    requires Valid(b) && Live(b, h) && b.filesystems[h.filesystemID].maxCapacity <= capacity
    ensures OnlyResized(b, UpdateFilesystem(b, h.spaceID, h.filesystemID, Some(capacity)).0, h, capacity)
  {
    hide IndexOk, QuotasOk, RootCapacity;
    UpdateFilesystemKeepsValid(b, h.spaceID, h.filesystemID, Some(capacity));
    RootCapacityIsCapacity(UpdateFilesystem(b, h.spaceID, h.filesystemID, Some(capacity)).0, h);
  }

  lemma SameIsOnly(b: Backend, h: Handle)
    requires Valid(b) && Live(b, h)
    ensures OnlyResized(b, b, h, b.filesystems[h.filesystemID].maxCapacity)
  {
    hide IndexOk, QuotasOk, RootCapacity;
    RootCapacityIsCapacity(b, h);
    var f := b.filesystems[h.filesystemID];
    assert b.filesystems[h.filesystemID := f.(maxCapacity := f.maxCapacity)] == b.filesystems;
  }

  // An expand: every request, every state.
  lemma ExpansionAnswer(env: Env, w: World, volumeID: string, range: Option<CapacityRange>, steps: nat)
    requires Valid(w.b) && steps >= MAX_STEPS
    ensures var req := ExpandRequest(volumeID, range);
            match (ParseVolumeHandle(volumeID), range)
            case (Some(h), Some(CapacityRange(required, limit))) =>
              if required < 0 || limit < 0 || (required == 0 && limit == 0) || (limit > 0 && required > limit) then
                Refused(env, w, req, steps, InvalidArgument)
              else if volumeID in w.locks then Refused(env, w, req, steps, Aborted)
              else if !Live(w.b, h) then Refused(env, w, req, steps, NotFoundCode)
              else
                var current := w.b.filesystems[h.filesystemID].maxCapacity;
                if limit > 0 && current > limit then Refused(env, w, req, steps, InvalidArgument)
                else
                  var (w', pc') := Call(env, w, req, steps);
                  && pc' == Returned(VolumeExpanded(Expanded(current, required, limit))) && w'.locks == w.locks
                  && OnlyResized(w.b, w'.b, h, Expanded(current, required, limit))
            case _ => Refused(env, w, req, steps, InvalidArgument)
  {
    hide IndexOk, QuotasOk, Alone, ParseVolumeHandle, StepRpc, OnlyResized;
    var req := ExpandRequest(volumeID, range);
    if !WantsKey(req) {
      BadFieldsAreRefused(env, w, req);
      EndsAtOnce(env, w, req, steps, w, Error(InvalidArgument));
    } else if volumeID in w.locks {
      TakenKeyAborts(env, w, req, Delivered);
      EndsAtOnce(env, w, req, steps, w, Error(Aborted));
    } else {
      var h := ParseVolumeHandle(volumeID).value;
      TakesExpandLock(env, w, req, h);
      if !Live(w.b, h) {
        var w1 := w.(locks := w.locks + {volumeID});
        MissingIsNotFound(env, w1, Rpc(req, Locked(ReadQuota(h))), h);
        EndsUnderLock(env, w, req, ReadQuota(h), steps, Error(NotFoundCode));
      } else {
        ExpandLive(env, w, req, h, steps);
      }
    }
  }

  lemma TakesExpandLock(env: Env, w: World, req: Request, h: Handle)
    requires Valid(w.b) && req.ExpandRequest? && WantsKey(req) && req.volumeID !in w.locks
    requires ParseVolumeHandle(req.volumeID) == Some(h)
    ensures StepRpc(env, w, req, Begin, Delivered) == (w.(locks := w.locks + {req.volumeID}), Locked(ReadQuota(h)))
    ensures Expands(req, h)
  {
    hide IndexOk, QuotasOk, ParseVolumeHandle;
    EmptyIsNoHandle();
    SensibleIsValid(req.range);
  }

  lemma ExpandLive(env: Env, w: World, req: Request, h: Handle, steps: nat)
    requires Valid(w.b) && req.ExpandRequest? && WantsKey(req) && req.volumeID !in w.locks && steps >= MAX_STEPS
    requires ParseVolumeHandle(req.volumeID) == Some(h) && Live(w.b, h)
    ensures var current, required, limit := w.b.filesystems[h.filesystemID].maxCapacity, req.range.value.required,
            req.range.value.limit;
            if limit > 0 && current > limit then Refused(env, w, req, steps, InvalidArgument)
            else
              var (w', pc') := Call(env, w, req, steps);
              && pc' == Returned(VolumeExpanded(Expanded(current, required, limit))) && w'.locks == w.locks
              && OnlyResized(w.b, w'.b, h, Expanded(current, required, limit))
  {
    hide IndexOk, QuotasOk, Alone, ParseVolumeHandle, StepRpc, OnlyResized, UpdateFilesystem;
    var current := w.b.filesystems[h.filesystemID].maxCapacity;
    var w1 := w.(locks := w.locks + {req.volumeID});
    TakesExpandLock(env, w, req, h);
    QuotaEnds(env, w1, req, h, steps - 1);
    var (after, response) := ExpandOutcome(w, h, current, req.range);
    assert Released(ExpandOutcome(w1, h, current, req.range).0, req.volumeID) == after by {
      assert w1.locks - {req.volumeID} == w.locks;
    }
    AfterStep(env, w, req, Begin, steps, w1, Locked(ReadQuota(h)), after, response);
    SensibleIsValid(req.range);
    ExpandAnswer(current, req.range);
    SameIsOnly(w.b, h);
    if DecideExpand(current, req.range).Resize? {
      ResizeIsOnly(w.b, h, RequestedCapacity(req.range));
    }
  }

  // Any listing of quotas: the first root quota decides, if it has a capacity.
  lemma RootQuotaDecides(h: Handle, required: int, limit: int, quotas: seq<Quota>)
    requires Sensible(Some(CapacityRange(required, limit)))
    ensures var decision := DecideQuota(h, Some(CapacityRange(required, limit)), quotas);
            if forall quota | quota in quotas :: !quota.isRoot then decision == Unlock(Error(FailedPrecondition))
            else
              exists i | 0 <= i < |quotas| ::
                && quotas[i].isRoot && (forall j | 0 <= j < i :: !quotas[j].isRoot)
                && match quotas[i].maxCapacity
                   case None => decision == Unlock(Error(FailedPrecondition))
                   case Some(current) =>
                     decision == if limit > 0 && current > limit then Unlock(Error(InvalidArgument))
                                 else if Expanded(current, required, limit) == current then
                                   Unlock(VolumeExpanded(current))
                                 else WriteQuota(h, Expanded(current, required, limit))
  {
    FirstRootIsFirst(quotas);
  }

  lemma {:induction false} FirstRootIsFirst(quotas: seq<Quota>)
    ensures match FirstRoot(quotas)
            case None => forall quota | quota in quotas :: !quota.isRoot
            case Some(root) =>
              root in quotas && root.isRoot &&
              exists i | 0 <= i < |quotas| :: quotas[i] == root && forall j | 0 <= j < i :: !quotas[j].isRoot
  {
    if quotas != [] && !quotas[0].isRoot {
      FirstRootIsFirst(quotas[1..]);
      assert quotas == [quotas[0]] + quotas[1..];
      if FirstRoot(quotas).Some? {
        var i :| 0 <= i < |quotas[1..]| && quotas[1..][i] == FirstRoot(quotas).value
                 && forall j | 0 <= j < i :: !quotas[1..][j].isRoot;
        assert quotas[i + 1] == FirstRoot(quotas).value;
        forall j | 0 <= j < i + 1 ensures !quotas[j].isRoot {
          assert j > 0 ==> quotas[j] == quotas[1..][j - 1];
        }
      }
    }
  }

  // Delete

  // A delete: every request, every state, every fate of its call.
  lemma DeleteAnswer(env: Env, w: World, volumeID: string, d: Delivery, steps: nat)
    requires Valid(w.b) && steps >= MAX_STEPS
    ensures var (w', pc') := Alone(env, w, DeleteRequest(volumeID), Begin, [Delivered, d], steps);
            if volumeID == "" then (w', pc') == (w, Returned(Error(InvalidArgument)))
            else
              match ParseVolumeHandle(volumeID)
              case None => (w', pc') == (w, Returned(VolumeDeleted))
              case Some(h) =>
                && pc' == Returned(if d.Delivered? then VolumeDeleted else Error(FaultCode(d.fault, false)))
                && w'.locks == w.locks
                && if d.RequestLost? then w'.b == w.b else Deleted(w.b, w'.b, h)
  {
    hide IndexOk, QuotasOk, Alone, ParseVolumeHandle, StepRpc, DeleteFilesystem, Deleted;
    var req, net := DeleteRequest(volumeID), [Delivered, d];
    assert Next(net) == Delivered && Later(net) == [d] && Next([d]) == d && Later([d]) == [];
    AloneStep(env, w, req, Begin, net, steps);
    DeleteBegins(env, w, volumeID);
    match ParseVolumeHandle(volumeID)
    case None => AloneDone(env, w, req, StepRpc(env, w, req, Begin, Delivered).1, [d], steps - 1);
    case Some(h) =>
      if volumeID == "" {
        AloneDone(env, w, req, Returned(Error(InvalidArgument)), [d], steps - 1);
      } else {
        var pc := Loose(CallDelete(h));
        AloneStep(env, w, req, pc, [d], steps - 1);
        DeleteCalls(env, w, req, h, d);
        var (w1, pc1) := StepRpc(env, w, req, pc, d);
        AloneDone(env, w1, req, pc1, [], steps - 2);
      }
  }

  lemma DeleteBegins(env: Env, w: World, volumeID: string)
    requires Valid(w.b)
    ensures StepRpc(env, w, DeleteRequest(volumeID), Begin, Delivered) ==
            (w,
             if volumeID == "" then Returned(Error(InvalidArgument))
             else
               match ParseVolumeHandle(volumeID)
               case None => Returned(VolumeDeleted)
               case Some(h) => Loose(CallDelete(h)))
  {
    hide IndexOk, QuotasOk, ParseVolumeHandle;
  }

  lemma DeleteCalls(env: Env, w: World, req: Request, h: Handle, d: Delivery)
    requires Valid(w.b) && req.DeleteRequest?
    ensures var (w', pc') := StepRpc(env, w, req, Loose(CallDelete(h)), d);
            && Valid(w'.b) && w'.locks == w.locks
            && pc' == Returned(if d.Delivered? then VolumeDeleted else Error(FaultCode(d.fault, false)))
            && if d.RequestLost? then w'.b == w.b else Deleted(w.b, w'.b, h)
  {
    hide IndexOk, QuotasOk, Deleted;
    DeletionRemoves(w.b, h);
  }

  // Get

  // A get: every request, every state. It changes nothing.
  lemma GetAnswer(env: Env, w: World, volumeID: string, steps: nat)
    requires Valid(w.b) && steps >= MAX_STEPS
    ensures var req := GetRequest(volumeID);
            match ParseVolumeHandle(volumeID)
            case None => Refused(env, w, req, steps, InvalidArgument)
            case Some(h) =>
              if !Live(w.b, h) then Refused(env, w, req, steps, NotFoundCode)
              else
                var f, p := w.b.filesystems[h.filesystemID], w.b.policies[h.filesystemID];
                if !HasMountTarget(env.parse, f) then Refused(env, w, req, steps, FailedPrecondition)
                else
                  exists volume, nodeIDs ::
                    && Call(env, w, req, steps) == (w, Returned(VolumeInfo(volume, nodeIDs)))
                    && Describes(volume, f, "") && ListsNodes(nodeIDs, p)
  {
    hide IndexOk, QuotasOk, Alone, ParseVolumeHandle, StepRpc, HasMountTarget, CsiVolume, Describes, PublishedNodeIDs;
    var req := GetRequest(volumeID);
    GetBegins(env, w, volumeID);
    match ParseVolumeHandle(volumeID)
    case None => EndsAtOnce(env, w, req, steps, w, Error(InvalidArgument));
    case Some(h) =>
      var pc := Loose(ReadFilesystem(h));
      GetReads(env, w, req, h);
      if Live(w.b, h) && HasMountTarget(env.parse, w.b.filesystems[h.filesystemID]) {
        var f, p := w.b.filesystems[h.filesystemID], w.b.policies[h.filesystemID];
        var response := VolumeInfo(CsiVolume(f, ""), PublishedNodeIDs(p));
        var status := Loose(ReadStatus(h, f));
        AloneDone(env, w, req, Returned(response), [], steps - 3);
        AfterStep(env, w, req, status, steps - 2, w, Returned(response), w, response);
        AfterStep(env, w, req, pc, steps - 1, w, status, w, response);
        AfterStep(env, w, req, Begin, steps, w, pc, w, response);
        AnswerDescribes(f, "");
        StatusLists(w.b, p);
      } else {
        var response := Error(if Live(w.b, h) then FailedPrecondition else NotFoundCode);
        AloneDone(env, w, req, Returned(response), [], steps - 2);
        AfterStep(env, w, req, pc, steps - 1, w, Returned(response), w, response);
        AfterStep(env, w, req, Begin, steps, w, pc, w, response);
      }
  }

  // The node IDs parse back to the access list, if the policy is enabled.
  predicate ListsNodes(nodeIDs: seq<string>, p: Policy) {
    if p.enabled then |nodeIDs| == |p.acl| && forall i | 0 <= i < |nodeIDs| :: Atoi(nodeIDs[i]) == Some(p.acl[i])
    else nodeIDs == []
  }

  lemma StatusLists(b: Backend, p: Policy)
    requires Valid(b) && PolicyOk(b, p)
    ensures ListsNodes(PublishedNodeIDs(p), p)
  {
    hide IndexOk, QuotasOk;
    PublishedNodeIDsParseBack(p);
  }

  lemma GetBegins(env: Env, w: World, volumeID: string)
    requires Valid(w.b)
    ensures StepRpc(env, w, GetRequest(volumeID), Begin, Delivered) ==
            (w,
             match ParseVolumeHandle(volumeID)
             case None => Returned(Error(InvalidArgument))
             case Some(h) => Loose(ReadFilesystem(h)))
  {
    hide IndexOk, QuotasOk, ParseVolumeHandle;
    EmptyIsNoHandle();
  }

  lemma GetReads(env: Env, w: World, req: Request, h: Handle)
    requires Valid(w.b) && req.GetRequest?
    ensures StepRpc(env, w, req, Loose(ReadFilesystem(h)), Delivered) ==
            (w,
             if !Live(w.b, h) then Returned(Error(NotFoundCode))
             else if !HasMountTarget(env.parse, w.b.filesystems[h.filesystemID]) then
               Returned(Error(FailedPrecondition))
             else Loose(ReadStatus(h, w.b.filesystems[h.filesystemID])))
    ensures Live(w.b, h) ==>
              h.filesystemID in w.b.policies && PolicyOk(w.b, w.b.policies[h.filesystemID])
              && StepRpc(env, w, req, Loose(ReadStatus(h, w.b.filesystems[h.filesystemID])), Delivered) ==
                 (w, Returned(VolumeInfo(CsiVolume(w.b.filesystems[h.filesystemID], ""),
                                         PublishedNodeIDs(w.b.policies[h.filesystemID]))))
  {
    hide IndexOk, QuotasOk, HasMountTarget, CsiVolume, PublishedNodeIDs;
  }

  // When a publish is about to return success, a get that is made now reports its
  // node; when an unpublish is, it does not.
  lemma GetReportsSuccess(env: Env, s: System, events: seq<Event>, reqs: set<Request>, h: Handle, id: nat,
                          volumeID: string, steps: nat)
    requires Initial(s) && Draws(events, reqs) && Live(Run(env, s, events).w.b, h)
    requires PolicySafe(env, reqs, h, Run(env, s, events).w.b.filesystems[h.filesystemID].nfsLabel)
    requires var rpcs := Run(env, s, events).rpcs;
             id in rpcs && Addresses(rpcs[id].req, h) && rpcs[id].pc == Locked(Unlock(Done(rpcs[id].req)))
    requires ParseVolumeHandle(volumeID) == Some(h) && steps >= MAX_STEPS
    requires HasMountTarget(env.parse, Run(env, s, events).w.b.filesystems[h.filesystemID])
    ensures var s' := Run(env, s, events);
            var (w', pc') := Call(env, s'.w, GetRequest(volumeID), steps);
            && w' == s'.w && pc'.Returned? && pc'.response.VolumeInfo?
            && ((exists nodeID | nodeID in pc'.response.publishedNodeIDs ::
                   Atoi(nodeID) == Some(NodeOf(s'.rpcs[id].req))) <==> s'.rpcs[id].req.PublishRequest?)
  {
    hide IndexOk, QuotasOk, PolicySafe, StepRpc, Run, Alone, ParseVolumeHandle, Atoi, HasMountTarget, Describes;
    var s' := Run(env, s, events);
    SuccessIsReported(env, s, events, reqs, h, id);
    GetAnswer(env, s'.w, volumeID, steps);
    ListedIffEffective(Call(env, s'.w, GetRequest(volumeID), steps).1.response.publishedNodeIDs,
                       s'.w.b.policies[h.filesystemID], s'.rpcs[id].req);
  }

  lemma ListedIffEffective(nodeIDs: seq<string>, p: Policy, req: Request)
    requires ListsNodes(nodeIDs, p) && ChangesPolicy(req) && Effective(req, p)
    ensures (exists nodeID | nodeID in nodeIDs :: Atoi(nodeID) == Some(NodeOf(req))) <==> req.PublishRequest?
  {
    hide Atoi, NodeOf;
    var n := NodeOf(req);
    if req.PublishRequest? {
      var i :| 0 <= i < |p.acl| && p.acl[i] == n;
      assert nodeIDs[i] in nodeIDs;
    }
  }
}
