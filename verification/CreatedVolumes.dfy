// What a successful CreateVolume answers, over all runs: the fields of its volume
// are those of the filesystem that it waited for, and the mTLS mode of the space.
module CreatedVolumes {
  import opened Text
  import opened Handles
  import opened Labels
  import opened NfsModel
  import opened MountTargets
  import opened LinodeContract
  import opened Transport
  import opened ControllerSteps
  import opened VolumeFrames
  import opened Ownership
  import opened PolicySafety
  import opened SquashSafety
  import opened StepAnswers
  import opened RunAnswers

  // The volume is this filesystem, in a space of this mTLS mode. An empty mode
  // leaves its key out.
  predicate Describes(volume: Volume, f: Filesystem, mtlsMode: string) {
    && volume.volumeID == Itoa(f.spaceID) + "/" + Itoa(f.id)
    && volume.capacity == f.maxCapacity
    && DescribesPlaces(volume.context, f)
    && (MTLS_MODE in volume.context <==> mtlsMode != "")
    && (mtlsMode != "" ==> volume.context[MTLS_MODE] == mtlsMode)
  }

  predicate DescribesPlaces(context: map<string, string>, f: Filesystem) {
    && context.Keys - {MTLS_MODE} == {SPACE_ID, FILESYSTEM_ID, MOUNT_TARGET, MOUNT_TARGET_IPS, REGION}
    && SPACE_ID in context && context[SPACE_ID] == Itoa(f.spaceID)
    && FILESYSTEM_ID in context && context[FILESYSTEM_ID] == Itoa(f.id)
    && MOUNT_TARGET in context
    && context[MOUNT_TARGET] == (match f.mountTargetFQDN case None => "" case Some(fqdn) => fqdn)
    && MOUNT_TARGET_IPS in context && context[MOUNT_TARGET_IPS] == Join(f.mountTargetIPs, ",")
    && REGION in context && context[REGION] == f.region
  }

  lemma KeysDiffer()
    ensures |SPACE_ID| == 8 && |FILESYSTEM_ID| == 13 && |MOUNT_TARGET| == 12 && |MOUNT_TARGET_IPS| == 16
    ensures |REGION| == 6 && |MTLS_MODE| == 9
  {
  }

  lemma AnswerDescribes(f: Filesystem, mtlsMode: string)
    ensures Describes(CsiVolume(f, mtlsMode), f, mtlsMode)
  {
    KeysDiffer();
    var context := VolumeContext(f, mtlsMode);
    assert context.Keys - {MTLS_MODE} == {SPACE_ID, FILESYSTEM_ID, MOUNT_TARGET, MOUNT_TARGET_IPS, REGION};
  }

  // The filesystem was in this state after the first k events: active, mountable
  // and of the request's label.
  ghost predicate WasActive(env: Env, s: System, events: seq<Event>, req: Request, f: Filesystem, k: nat)
    requires Valid(s.w.b)
  {
    && k <= |events|
    && var b := At(env, s, events, k).w.b;
       && f.id in b.filesystems && b.filesystems[f.id] == f && f.status == FilesystemActive
       && HasMountTarget(env.parse, f) && req.CreateRequest? && f.nfsLabel == LabelOf(req.name)
  }

  // The step that takes an RPC from waiting for a filesystem to what follows
  lemma AwaitYields(env: Env, w: World, rpc: Rpc, d: Delivery, h: Handle)
    requires Valid(w.b) && Placed(w.b, h, rpc) && !Squashing(rpc.pc)
    ensures var (w', next) := StepRpc(env, w, rpc.req, rpc.pc, d);
            && (next.Provisioning? && next.step.ReadSquash? ==> Fresh(env, w', next.step.filesystem))
            && (rpc.pc.Provisioning? && next.Returned? && next.response.VolumeCreated? ==>
                  Yields(env, w', rpc.pc.step, next.response.volume))
  {
    hide IndexOk, QuotasOk, CreateStep, CsiVolume, LockedStep, LooseStep, HasMountTarget, Yields;
    match rpc.pc
    case Provisioning(step) => CreateYields(env, w, rpc.req, step, d, h);
    case Loose(stage) => LooseStepReturns(env, w.b, stage, d);
    case _ =>
  }

  // The volume is the filesystem that the RPC has just waited for.
  predicate Yields(env: Env, w: World, step: CreateStage, volume: Volume) {
    && (step.AwaitCreated? || step.AwaitExisting?) && step.h.filesystemID in w.b.filesystems
    && var f := w.b.filesystems[step.h.filesystemID];
       Fresh(env, w, f) && HandleOf(f) == step.h && volume == CsiVolume(f, w.b.mtlsMode)
  }

  // f is live in w as it is here, active and mountable.
  predicate Fresh(env: Env, w: World, f: Filesystem) {
    && f.id in w.b.filesystems && w.b.filesystems[f.id] == f && f.spaceID == w.b.spaceID
    && f.status == FilesystemActive && HasMountTarget(env.parse, f)
  }

  lemma CreateYields(env: Env, w: World, req: Request, step: CreateStage, d: Delivery, h: Handle)
    requires Valid(w.b) && Placed(w.b, h, Rpc(req, Provisioning(step))) && !Squashing(Provisioning(step))
    ensures var (b', next) := CreateStep(env, w.b, req, req.parameters.value, step, d);
            var w' := w.(b := b');
            && (next.Provisioning? && next.step.ReadSquash? ==> Fresh(env, w', next.step.filesystem))
            && (next.Returned? && next.response.VolumeCreated? ==> Yields(env, w', step, next.response.volume))
  {
    hide QuotasOk, CsiVolume, HasMountTarget;
    match step
    case AwaitCreated(k, _) => AwaitedIsFresh(env, w, k);
    case AwaitExisting(k, _) => AwaitedIsFresh(env, w, k);
    case _ =>
  }

  lemma AwaitedIsFresh(env: Env, w: World, k: Handle)
    requires Valid(w.b)
    ensures var (b', reply) := WaitForFilesystem(w.b, k.spaceID, k.filesystemID, FilesystemActive);
            && b'.mtlsMode == w.b.mtlsMode
            && (reply.Success? && HasMountTarget(env.parse, reply.value) ==>
                  && Fresh(env, w.(b := b'), reply.value) && HandleOf(reply.value) == k
                  && b'.filesystems[k.filesystemID] == reply.value)
  {
    hide QuotasOk, HasMountTarget;
  }

  // Who reconciles the policy of f has waited for f.
  lemma {:induction false} SquashersWaited(env: Env, s: System, events: seq<Event>, id: nat, n: nat) returns (k: nat)
    requires Initial(s) && n <= |events| && id in At(env, s, events, n).rpcs
    requires Squashing(At(env, s, events, n).rpcs[id].pc)
    ensures var rpc := At(env, s, events, n).rpcs[id];
            k <= n && WasActive(env, s, events, rpc.req, rpc.pc.step.filesystem, k)
            && rpc.pc.step.filesystem.spaceID == s.w.b.spaceID
    decreases n
  {
    hide IndexOk, QuotasOk, StepRpc, Run, HasMountTarget, SquashStep;
    if n == 0 {
      EmptyRun(env, s, events);
      assert false;
    } else {
      NextState(env, s, events, n - 1);
      var before, after := At(env, s, events, n - 1), At(env, s, events, n);
      if id in before.rpcs && Squashing(before.rpcs[id].pc)
         && before.rpcs[id].pc.step.filesystem == after.rpcs[id].pc.step.filesystem {
        k := SquashersWaited(env, s, events, id, n - 1);
        RequestStays(env, before, events[n - 1], id);
      } else {
        k := n;
        JustAwaited(env, s, events, id, n);
      }
    }
  }

  lemma EmptyRun(env: Env, s: System, events: seq<Event>)
    requires Valid(s.w.b)
    ensures At(env, s, events, 0) == s
  {
    hide IndexOk, QuotasOk;
    assert events[..0] == [];
  }

  lemma RequestStays(env: Env, s: System, e: Event, id: nat)
    requires Valid(s.w.b) && id in s.rpcs
    ensures id in Apply(env, s, e).rpcs && Apply(env, s, e).rpcs[id].req == s.rpcs[id].req
  {
    hide IndexOk, QuotasOk, StepRpc;
  }

  ghost function Requests(events: seq<Event>): set<Request> {
    set e | e in events && e.Start? :: e.req
  }

  lemma PlacedAt(env: Env, s: System, events: seq<Event>, n: nat, h: Handle)
    requires Initial(s) && n <= |events|
    ensures Consistent(At(env, s, events, n), Requests(events), h)
  {
    hide IndexOk, QuotasOk, Run;
    StagesFitRequests(env, s, events[..n], Requests(events), h);
  }

  lemma JustAwaited(env: Env, s: System, events: seq<Event>, id: nat, n: nat)
    requires Initial(s) && 0 < n <= |events| && id in At(env, s, events, n).rpcs
    requires At(env, s, events, n) == Apply(env, At(env, s, events, n - 1), events[n - 1])
    requires var rpcs, rpc := At(env, s, events, n - 1).rpcs, At(env, s, events, n).rpcs[id];
             && Squashing(rpc.pc)
             && !(id in rpcs && Squashing(rpcs[id].pc) && rpcs[id].pc.step.filesystem == rpc.pc.step.filesystem)
    ensures var rpc := At(env, s, events, n).rpcs[id];
            && WasActive(env, s, events, rpc.req, rpc.pc.step.filesystem, n)
            && rpc.pc.step.filesystem.spaceID == s.w.b.spaceID
  {
    hide IndexOk, QuotasOk, StepRpc, Run, HasMountTarget, SquashStep, Placed;
    var before, rpc := At(env, s, events, n - 1), At(env, s, events, n).rpcs[id];
    var f, e := rpc.pc.step.filesystem, events[n - 1];
    PlacedAt(env, s, events, n - 1, HandleOf(f));
    PlacedAt(env, s, events, n, HandleOf(f));
    assert e.Step? && e.id == id;
    var last := before.rpcs[id];
    if Squashing(last.pc) {
      SquashKeepsFilesystem(env, before.w, last, e.d, HandleOf(f));
    } else {
      StepsBeforeSquash(env, before.w, last, e.d, HandleOf(f));
      AwaitYields(env, before.w, last, e.d, HandleOf(f));
      OwnerHasLabel(At(env, s, events, n).w.b, rpc);
      SameSpace(env, s, events, n);
    }
  }

  lemma OwnerHasLabel(b: Backend, rpc: Rpc)
    requires Squashing(rpc.pc) && Placed(b, HandleOf(rpc.pc.step.filesystem), rpc)
    requires var f := rpc.pc.step.filesystem;
             f.id in b.filesystems && b.filesystems[f.id] == f && f.spaceID == b.spaceID
    ensures rpc.req.CreateRequest? && rpc.pc.step.filesystem.nfsLabel == LabelOf(rpc.req.name)
  {
  }

  lemma SquashKeepsFilesystem(env: Env, w: World, rpc: Rpc, d: Delivery, h: Handle)
    requires Valid(w.b) && Placed(w.b, h, rpc) && Squashing(rpc.pc)
    ensures var next := StepRpc(env, w, rpc.req, rpc.pc, d).1;
            Squashing(next) ==> next.step.filesystem == rpc.pc.step.filesystem
  {
    hide IndexOk, QuotasOk, StepRpc, CsiVolume, Placed;
    StepsOfSquash(env, w, rpc, d, h);
  }

  lemma {:induction false} SameSpaceAlong(env: Env, s: System, events: seq<Event>)
    requires Valid(s.w.b)
    ensures Run(env, s, events).w.b.spaceID == s.w.b.spaceID && Run(env, s, events).w.b.mtlsMode == s.w.b.mtlsMode
    decreases events
  {
    hide IndexOk, QuotasOk, StepRpc;
    if events != [] {
      ApplyFrame(env, s, events[0], Handle(0, 0));
      SameSpaceAlong(env, Apply(env, s, events[0]), events[1..]);
    }
  }

  lemma SameSpace(env: Env, s: System, events: seq<Event>, n: nat)
    requires Valid(s.w.b) && n <= |events|
    ensures At(env, s, events, n).w.b.spaceID == s.w.b.spaceID
    ensures At(env, s, events, n).w.b.mtlsMode == s.w.b.mtlsMode
  {
    SameSpaceAlong(env, s, events[..n]);
  }

  // In every run, a volume that a CreateVolume has answered is a filesystem that
  // was, at some point of the run, active, mountable and of the request's label;
  // the volume has its handle, its capacity, its targets and its region, and the
  // mTLS mode of the space.
  lemma AnsweredVolumeWasActive(env: Env, s: System, events: seq<Event>, id: nat) returns (f: Filesystem, k: nat)
    requires Initial(s) && id in Run(env, s, events).rpcs
    requires var pc := Run(env, s, events).rpcs[id].pc;
             pc.Returned? && pc.response.VolumeCreated?
    ensures var rpc := Run(env, s, events).rpcs[id];
            && WasActive(env, s, events, rpc.req, f, k) && f.spaceID == s.w.b.spaceID
            && Describes(rpc.pc.response.volume, f, s.w.b.mtlsMode)
  {
    hide IndexOk, QuotasOk, StepRpc, Run, HasMountTarget, Describes, CsiVolume, Fits, Placed, Origin;
    var rpc := Run(env, s, events).rpcs[id];
    var n := AnswersComeFromSteps(env, s, events, id, Handle(0, 0));
    var s' := At(env, s, events, n);
    var last := s'.rpcs[id];
    SameSpace(env, s, events, n);
    OriginOfVolume(last.req, last.pc, events[n].d, rpc.pc.response);
    if Squashing(last.pc) {
      f := last.pc.step.filesystem;
      k := SquashersWaited(env, s, events, id, n);
      WaiterAnswers(env, s'.w, last, events[n].d, Handle(0, 0));
    } else {
      NextState(env, s, events, n);
      k := n + 1;
      f := JustAnswered(env, s, events, id, n);
    }
    AnswerDescribes(f, s.w.b.mtlsMode);
  }

  lemma OriginOfVolume(req: Request, pc: Pc, d: Delivery, response: Response)
    requires Origin(req, pc, d, response) && response.VolumeCreated?
    ensures pc.Provisioning? && d.Delivered? && req.CreateRequest? && req.parameters.Some?
    ensures if req.parameters.value.squash.Some? then pc.step.AwaitSquash?
            else pc.step.AwaitCreated? || pc.step.AwaitExisting?
  {
  }

  lemma WaiterAnswers(env: Env, w: World, rpc: Rpc, d: Delivery, h: Handle)
    requires Valid(w.b) && Placed(w.b, h, rpc) && rpc.pc.Provisioning? && rpc.pc.step.AwaitSquash?
    ensures var next := StepRpc(env, w, rpc.req, rpc.pc, d).1;
            next.Returned? && next.response.VolumeCreated? ==>
              next.response.volume == CsiVolume(rpc.pc.step.filesystem, w.b.mtlsMode)
  {
    hide IndexOk, QuotasOk, CsiVolume;
  }

  lemma JustAnswered(env: Env, s: System, events: seq<Event>, id: nat, n: nat) returns (f: Filesystem)
    requires Initial(s) && n < |events| && events[n].Step? && events[n].id == id
    requires At(env, s, events, n + 1) == Apply(env, At(env, s, events, n), events[n])
    requires var rpcs, w := At(env, s, events, n).rpcs, At(env, s, events, n).w;
             && id in rpcs && rpcs[id].pc.Provisioning? && !Squashing(rpcs[id].pc)
             && var next := StepRpc(env, w, rpcs[id].req, rpcs[id].pc, events[n].d).1;
                next.Returned? && next.response.VolumeCreated?
    ensures var rpc, w := At(env, s, events, n).rpcs[id], At(env, s, events, n).w;
            && WasActive(env, s, events, rpc.req, f, n + 1) && f.spaceID == s.w.b.spaceID
            && StepRpc(env, w, rpc.req, rpc.pc, events[n].d).1.response.volume == CsiVolume(f, s.w.b.mtlsMode)
  {
    hide IndexOk, QuotasOk, StepRpc, Run, HasMountTarget, CsiVolume, Placed;
    var s' := At(env, s, events, n);
    var rpc := s'.rpcs[id];
    PlacedAt(env, s, events, n, Handle(0, 0));
    AwaitYields(env, s'.w, rpc, events[n].d, Handle(0, 0));
    SameSpace(env, s, events, n + 1);
    PlacedAt(env, s, events, n, rpc.pc.step.h);
    AwaitedHasLabel(env, s'.w, rpc, events[n].d);
    f := StepRpc(env, s'.w, rpc.req, rpc.pc, events[n].d).0.b.filesystems[rpc.pc.step.h.filesystemID];
  }

  // The filesystem that is waited for has the label of the request.
  lemma AwaitedHasLabel(env: Env, w: World, rpc: Rpc, d: Delivery)
    requires Valid(w.b) && rpc.pc.Provisioning? && (rpc.pc.step.AwaitCreated? || rpc.pc.step.AwaitExisting?)
    requires Placed(w.b, rpc.pc.step.h, rpc) && Live(StepRpc(env, w, rpc.req, rpc.pc, d).0.b, rpc.pc.step.h)
    ensures rpc.req.CreateRequest?
    ensures var f := StepRpc(env, w, rpc.req, rpc.pc, d).0.b.filesystems[rpc.pc.step.h.filesystemID];
            f.nfsLabel == LabelOf(rpc.req.name)
  {
    hide IndexOk, QuotasOk, StepRpc, LabelOf;
    StepFrame(env, w, rpc.req, rpc.pc, d, rpc.pc.step.h);
  }

  // In every run, a CreateVolume with a squash policy answers success only from
  // its wait for the policy. If the requests agree, its goal was in place then.
  lemma AnsweredSquashWasInPlace(env: Env, s: System, events: seq<Event>, reqs: set<Request>, id: nat)
    returns (h: Handle, k: nat)
    requires Initial(s) && Draws(events, reqs) && id in Run(env, s, events).rpcs
    requires var rpc := Run(env, s, events).rpcs[id];
             rpc.pc.Returned? && rpc.pc.response.VolumeCreated? && SquashOf(rpc.req).Some?
    ensures var rpc, b := Run(env, s, events).rpcs[id], Run(env, s, events).w.b;
            && ReturnsAt(env, s, events, id, rpc, k) && Waits(At(env, s, events, k).rpcs[id], h)
            && rpc.pc.response.volume.volumeID == Itoa(h.spaceID) + "/" + Itoa(h.filesystemID)
            && (Live(b, h) && SquashesAgree(reqs, h, b.filesystems[h.filesystemID].nfsLabel) ==>
                  var b', title := At(env, s, events, k).w.b, b.filesystems[h.filesystemID].nfsLabel;
                  Live(b', h) ==>
                    AtGoal(env.mode, PolicyAt(s.w.b, h, title), b'.policies[h.filesystemID], SquashOf(rpc.req)))
  {
    hide IndexOk, QuotasOk, StepRpc, Run, HasMountTarget, CsiVolume, Fits, Placed, Origin, SquashesAgree, AtGoal;
    var rpc, b := Run(env, s, events).rpcs[id], Run(env, s, events).w.b;
    k := AnswersComeFromSteps(env, s, events, id, Handle(0, 0));
    var s' := At(env, s, events, k);
    OriginOfVolume(rpc.req, s'.rpcs[id].pc, events[k].d, rpc.pc.response);
    h := HandleOf(s'.rpcs[id].pc.step.filesystem);
    WaiterAnswers(env, s'.w, s'.rpcs[id], events[k].d, Handle(0, 0));
    AnswerDescribes(s'.rpcs[id].pc.step.filesystem, s'.w.b.mtlsMode);
    if Live(b, h) && SquashesAgree(reqs, h, b.filesystems[h.filesystemID].nfsLabel) && Live(s'.w.b, h) {
      LabelWasSame(env, s, events, k, h);
      SuccessfulSquashStays(env, s, events[..k], reqs, h, b.filesystems[h.filesystemID].nfsLabel, id);
    }
  }

  lemma LabelWasSame(env: Env, s: System, events: seq<Event>, k: nat, h: Handle)
    requires Valid(s.w.b) && k <= |events| && Live(Run(env, s, events).w.b, h)
    ensures Labelled(At(env, s, events, k).w.b, h, Run(env, s, events).w.b.filesystems[h.filesystemID].nfsLabel)
  {
    hide IndexOk, QuotasOk, StepRpc, Run;
    assert events[..k] + events[k..] == events;
    RunInTwo(env, s, events[..k], events[k..]);
    History(env, At(env, s, events, k), events[k..], h);
  }
}
