// CreateVolume takes no lock and may be cut at any call. Over all runs in which
// the requests for one label are equal, and nobody deletes the filesystem of that
// label or expands it out of the requested range, it is idempotent.
module ProvisioningSafety {
  import opened Wrappers
  import opened Handles
  import opened Labels
  import opened NfsModel
  import opened MountTargets
  import opened LinodeContract
  import opened Transport
  import opened AccessPolicies
  import opened ControllerSteps
  import opened VolumeFrames
  import opened Status

  // What the requests for one label ask for
  datatype Job = Job(title: string, parameters: Parameters, range: Option<CapacityRange>)

  predicate IsFor(req: Request, job: Job) {
    req.CreateRequest? && LabelOf(req.name) == job.title
  }

  predicate Asks(req: Request, job: Job) {
    IsFor(req, job) && req.parameters == Some(job.parameters) && req.range == job.range
  }

  // k neither has the label nor will ever be created.
  predicate Elsewhere(b: Backend, k: Handle, job: Job) {
    !Unborn(b, k) && !Named(b, k, job)
  }

  // A request that leaves the filesystem of the label to the job, seen from the
  // state in which a run begins. An expand may stay inside the range of the job,
  // or require nothing: then it never resizes, unless from a negative capacity.
  predicate Peaceful(b: Backend, req: Request, job: Job) {
    match req
    case CreateRequest(_, _, _, _, _) => IsFor(req, job) ==> Asks(req, job)
    case DeleteRequest(volumeID) =>
      (match ParseVolumeHandle(volumeID)
       case None => true
       case Some(k) => Elsewhere(b, k, job))
    case ExpandRequest(volumeID, range) =>
      (match ParseVolumeHandle(volumeID)
       case None => true
       case Some(k) =>
         ExpandRangeValid(range) ==>
           || Elsewhere(b, k, job)
           || CapacityCompatible(RequestedCapacity(range), job.range)
           || (Required(range) == 0 && Required(job.range) >= 0))
    case _ => true
  }

  ghost predicate AllPeaceful(b: Backend, reqs: set<Request>, job: Job) {
    forall req | req in reqs :: Peaceful(b, req, job)
  }

  predicate Named(b: Backend, k: Handle, job: Job) {
    Live(b, k) && b.filesystems[k.filesystemID].nfsLabel == job.title
  }

  lemma ApartKept(b: Backend, b': Backend, k: Handle, job: Job)
    requires Valid(b) && Valid(b') && Framed(b, b', k, true, true) && Elsewhere(b, k, job)
    ensures Elsewhere(b', k, job)
  {
    hide IndexOk, QuotasOk;
  }

  // A required capacity fits under the limit, if there is one.
  predicate WellFormed(range: Option<CapacityRange>) {
    Limit(range) == 0 || Required(range) <= Limit(range)
  }

  // The capacity that CreateVolume asks for passes its own later check exactly
  // when the range is well-formed.
  lemma CreatedCapacityIsCompatible(range: Option<CapacityRange>)
    ensures CapacityCompatible(RequestedCapacity(range), range) <==> WellFormed(range)
  {
  }

  predicate Known(b: Backend, job: Job) {
    FilesystemName(b.spaceID, job.title) in b.filesystemByName
  }

  function IDOf(b: Backend, job: Job): int
    requires Known(b, job)
  {
    b.filesystemByName[FilesystemName(b.spaceID, job.title)]
  }

  // The filesystem of the label, if there is one, is one the job accepts.
  ghost predicate Accepted(b: Backend, job: Job)
    requires Valid(b)
  {
    Known(b, job) ==>
      && CapacityCompatible(b.filesystems[IDOf(b, job)].maxCapacity, job.range)
      && b.filesystems[IDOf(b, job)].tags == TagList(job.parameters)
  }

  // Where an RPC for the label stands
  ghost predicate Tracks(b: Backend, job: Job, pc: Pc)
    requires Valid(b)
  {
    match pc
    case Begin => true
    case Provisioning(ResolveSpace) => true
    case Provisioning(ReadSpacePolicy(_)) => true
    case Provisioning(FindFilesystem(spaceID, mtlsMode)) => spaceID == b.spaceID && mtlsMode == b.mtlsMode
    case Provisioning(CallCreate(spaceID, mtlsMode)) => spaceID == b.spaceID && mtlsMode == b.mtlsMode
    case Provisioning(AwaitCreated(h, mtlsMode)) =>
      Known(b, job) && h == Handle(b.spaceID, IDOf(b, job)) && mtlsMode == b.mtlsMode
    case Provisioning(AwaitExisting(h, mtlsMode)) =>
      Known(b, job) && h == Handle(b.spaceID, IDOf(b, job)) && mtlsMode == b.mtlsMode
    case Provisioning(ReadSquash(f, mtlsMode)) => Serves(b, job, f) && mtlsMode == b.mtlsMode
    case Provisioning(WriteSquash(f, mtlsMode, _)) => Serves(b, job, f) && mtlsMode == b.mtlsMode
    case Provisioning(AwaitSquash(f, mtlsMode)) => Serves(b, job, f) && mtlsMode == b.mtlsMode
    case Returned(VolumeCreated(volume)) =>
      Known(b, job) && Serves(b, job, b.filesystems[IDOf(b, job)].(maxCapacity := volume.capacity))
      && volume == CsiVolume(b.filesystems[IDOf(b, job)].(maxCapacity := volume.capacity), b.mtlsMode)
    case Returned(Error(code)) => code != AlreadyExists
    case _ => false
  }

  // f is the active filesystem of the label as it was at some point, with a
  // capacity inside the requested range.
  ghost predicate Serves(b: Backend, job: Job, f: Filesystem)
    requires Valid(b)
  {
    && Known(b, job) && b.filesystems[IDOf(b, job)].(maxCapacity := f.maxCapacity) == f && Activate(f) == f
    && CapacityCompatible(f.maxCapacity, job.range)
  }

  // f is the filesystem of the label, and it is active.
  ghost predicate Mountable(b: Backend, job: Job, f: Filesystem)
    requires Valid(b)
  {
    Known(b, job) && b.filesystems[IDOf(b, job)] == f && Activate(f) == f
  }

  // Up to its capacity, a filesystem stays as it is or becomes active.
  predicate Develops(f: Filesystem, f': Filesystem) {
    f'.(maxCapacity := f.maxCapacity) in {f, Activate(f)}
  }

  // What every step preserves about the filesystem of the label
  ghost predicate KeepsJob(b: Backend, b': Backend, job: Job)
    requires Valid(b) && Valid(b')
  {
    && b'.spaceID == b.spaceID && b'.mtlsMode == b.mtlsMode
    && (Known(b, job) ==>
          && Known(b', job) && IDOf(b', job) == IDOf(b, job)
          && Develops(b.filesystems[IDOf(b, job)], b'.filesystems[IDOf(b, job)]))
    && (Accepted(b, job) ==> Accepted(b', job))
  }

  lemma TracksKept(b: Backend, b': Backend, job: Job, pc: Pc)
    requires Valid(b) && Valid(b') && KeepsJob(b, b', job) && Tracks(b, job, pc)
    ensures Tracks(b', job, pc)
  {
    hide QuotasOk, Activate;
    match pc
    case Provisioning(ReadSquash(f, _)) => ServesKept(b, b', job, f);
    case Provisioning(WriteSquash(f, _, _)) => ServesKept(b, b', job, f);
    case Provisioning(AwaitSquash(f, _)) => ServesKept(b, b', job, f);
    case Returned(VolumeCreated(volume)) =>
      ServesKept(b, b', job, b.filesystems[IDOf(b, job)].(maxCapacity := volume.capacity));
    case _ =>
  }

  lemma ServesKept(b: Backend, b': Backend, job: Job, f: Filesystem)
    requires Valid(b) && Valid(b') && KeepsJob(b, b', job) && Serves(b, job, f)
    ensures Serves(b', job, f)
  {
    hide IndexOk, QuotasOk;
  }

  // The steps of all RPCs

  lemma DeleteKeepsJob(b: Backend, h: Handle, job: Job)
    requires Valid(b) && !Named(b, h, job)
    ensures var b' := DeleteFilesystem(b, h.spaceID, h.filesystemID).0;
            Valid(b') && KeepsJob(b, b', job)
  {
    DeleteKeepsValid(b, h.spaceID, h.filesystemID);
    if Exists(b, h.spaceID, h.filesystemID) {
      NamesDiffer(b.spaceID, b.filesystems[h.filesystemID].nfsLabel, job.title);
    }
  }

  lemma ResizeKeepsJob(b: Backend, h: Handle, capacity: int, job: Job)
    requires Valid(b) && (Named(b, h, job) ==> CapacityCompatible(capacity, job.range))
    ensures var b' := UpdateFilesystem(b, h.spaceID, h.filesystemID, Some(capacity)).0;
            Valid(b') && KeepsJob(b, b', job)
  {
    hide QuotasOk;
    UpdateFilesystemKeepsValid(b, h.spaceID, h.filesystemID, Some(capacity));
    if Exists(b, h.spaceID, h.filesystemID) {
      NamesDiffer(b.spaceID, b.filesystems[h.filesystemID].nfsLabel, job.title);
    }
  }

  lemma WaitKeepsJob(b: Backend, h: Handle, job: Job)
    requires Valid(b)
    ensures var b' := WaitForFilesystem(b, h.spaceID, h.filesystemID, FilesystemActive).0;
            Valid(b') && KeepsJob(b, b', job)
  {
    hide IndexOk, QuotasOk;
    WaitForFilesystemKeepsValid(b, h.spaceID, h.filesystemID, FilesystemActive);
  }

  lemma PolicyCallsKeepJob(b: Backend, h: Handle, update: PolicyUpdate, job: Job)
    requires Valid(b)
    ensures var b' := UpdatePolicy(b, h.spaceID, h.filesystemID, update).0;
            Valid(b') && KeepsJob(b, b', job)
    ensures var b' := WaitForPolicy(b, h.spaceID, h.filesystemID, PolicyActive).0;
            Valid(b') && KeepsJob(b, b', job)
  {
    hide IndexOk, QuotasOk;
    UpdatePolicyKeepsValid(b, h.spaceID, h.filesystemID, update);
    WaitForPolicyKeepsValid(b, h.spaceID, h.filesystemID, PolicyActive);
  }

  // Creating is the one step that may introduce the label, and then only for
  // a request of this job.
  lemma CreateKeepsJob(env: Env, b: Backend, spaceID: int, req: Request, parameters: Parameters, job: Job)
    requires Valid(b) && req.CreateRequest? && WellFormed(job.range)
    requires IsFor(req, job) ==> req.range == job.range && parameters == job.parameters
    ensures var b' := CreateFilesystem(b, spaceID, OptionsFor(env, req, parameters)).0;
            Valid(b') && KeepsJob(b, b', job)
  {
    hide IndexOk, QuotasOk, CreateFilesystem;
    var options := OptionsFor(env, req, parameters);
    CreateKeepsValid(b, spaceID, options);
    CreateFrame(b, spaceID, options, Handle(b.spaceID, 0));
    CreateKeepsMode(b, spaceID, options);
    if Known(b, job) {
      CreateKeepsKnown(b, spaceID, options, job);
    } else {
      CreatedCapacityIsCompatible(job.range);
      CreateIntroducesAsked(b, spaceID, options, job);
    }
  }

  lemma CreateKeepsMode(b: Backend, spaceID: int, options: CreateOptions)
    requires Valid(b)
    ensures CreateFilesystem(b, spaceID, options).0.mtlsMode == b.mtlsMode
  {
    hide QuotasOk;
  }

  // A label that becomes known belongs to a filesystem with these options.
  lemma CreateIntroducesAsked(b: Backend, spaceID: int, options: CreateOptions, job: Job)
    requires Valid(b) && !Known(b, job) && Valid(CreateFilesystem(b, spaceID, options).0)
    ensures var b' := CreateFilesystem(b, spaceID, options).0;
            Known(b', job) ==>
              && options.nfsLabel == job.title && b'.filesystems[IDOf(b', job)].tags == TagsOf(options)
              && b'.filesystems[IDOf(b', job)].maxCapacity == options.maxCapacity
  {
    hide QuotasOk;
    NamesDiffer(b.spaceID, options.nfsLabel, job.title);
  }

  lemma CreateKeepsKnown(b: Backend, spaceID: int, options: CreateOptions, job: Job)
    requires Valid(b) && Known(b, job)
    ensures var b' := CreateFilesystem(b, spaceID, options).0;
            && b'.filesystemByName.Keys >= b.filesystemByName.Keys && Known(b', job) && IDOf(b', job) == IDOf(b, job)
            && IDOf(b, job) in b.filesystems && IDOf(b, job) in b'.filesystems
            && b'.filesystems[IDOf(b, job)] == b.filesystems[IDOf(b, job)]
  {
    hide QuotasOk;
  }

  lemma CreateStepKeepsJob(env: Env, b: Backend, req: Request, step: CreateStage, d: Delivery, job: Job)
    requires Valid(b) && req.CreateRequest? && req.parameters.Some? && WellFormed(job.range)
    requires IsFor(req, job) ==> Asks(req, job)
    ensures var b' := CreateStep(env, b, req, req.parameters.value, step, d).0;
            Valid(b') && KeepsJob(b, b', job)
  {
    hide IndexOk, QuotasOk;
    match step
    case CallCreate(spaceID, _) => CreateKeepsJob(env, b, spaceID, req, req.parameters.value, job);
    case AwaitCreated(h, _) => WaitKeepsJob(b, h, job);
    case AwaitExisting(h, _) => WaitKeepsJob(b, h, job);
    case WriteSquash(f, _, update) => PolicyCallsKeepJob(b, Handle(f.spaceID, f.id), update, job);
    case AwaitSquash(f, _) => PolicyCallsKeepJob(b, Handle(f.spaceID, f.id),
        PolicyUpdate(None, None, None, None, None), job);
    case _ =>
  }

  predicate DeletesApart(b: Backend, pc: Pc, job: Job) {
    match pc
    case Loose(CallDelete(k)) => !Named(b, k, job)
    case _ => true
  }

  predicate ResizesInRange(b: Backend, pc: Pc, job: Job) {
    match pc
    case Locked(WriteQuota(k, capacity)) =>
      !Unborn(b, k) && (Named(b, k, job) ==> CapacityCompatible(capacity, job.range))
    case _ => true
  }

  lemma LockedStepKeepsJob(b: Backend, req: Request, at: LockedStage, d: Delivery, job: Job)
    requires Valid(b) && ResizesInRange(b, Locked(at), job)
    ensures var b' := LockedStep(b, req, at, d).0;
            Valid(b') && KeepsJob(b, b', job)
  {
    hide IndexOk, QuotasOk;
    match at
    case WritePolicy(h, update) => PolicyCallsKeepJob(b, h, update, job);
    case AwaitPolicy(h) => PolicyCallsKeepJob(b, h, PolicyUpdate(None, None, None, None, None), job);
    case WriteQuota(h, capacity) => ResizeKeepsJob(b, h, capacity, job);
    case _ =>
  }

  lemma LooseStepKeepsJob(env: Env, b: Backend, stage: LooseStage, d: Delivery, job: Job)
    requires Valid(b) && DeletesApart(b, Loose(stage), job)
    ensures var b' := LooseStep(env, b, stage, d).0;
            Valid(b') && KeepsJob(b, b', job)
  {
    if stage.CallDelete? {
      DeleteKeepsJob(b, stage.h, job);
    }
  }

  lemma StepKeepsJob(env: Env, w: World, req: Request, pc: Pc, d: Delivery, job: Job)
    requires Valid(w.b) && WellFormed(job.range)
    requires IsFor(req, job) ==> Asks(req, job)
    requires DeletesApart(w.b, pc, job) && ResizesInRange(w.b, pc, job)
    ensures var b' := StepRpc(env, w, req, pc, d).0.b;
            Valid(b') && KeepsJob(w.b, b', job)
  {
    hide IndexOk, QuotasOk;
    match pc
    case Locked(at) => LockedRpcKeepsJob(env, w, req, at, d, job);
    case Loose(stage) => LooseStepKeepsJob(env, w.b, stage, d, job);
    case Provisioning(step) =>
      if req.CreateRequest? && req.parameters.Some? {
        CreateStepKeepsJob(env, w.b, req, step, d, job);
      }
    case _ =>
  }

  lemma LockedRpcKeepsJob(env: Env, w: World, req: Request, at: LockedStage, d: Delivery, job: Job)
    requires Valid(w.b) && ResizesInRange(w.b, Locked(at), job)
    ensures var b' := StepRpc(env, w, req, Locked(at), d).0.b;
            Valid(b') && KeepsJob(w.b, b', job)
  {
    hide IndexOk, QuotasOk;
    LockedStepKeepsJob(w.b, req, at, d, job);
  }

  // The steps of the RPCs for the label

  lemma FindTracks(env: Env, b: Backend, mtlsMode: string, d: Delivery, job: Job)
    requires Valid(b) && job.title != "" && env.region != "" && mtlsMode == b.mtlsMode
    ensures Tracks(b, job, FindStep(env, b, b.spaceID, mtlsMode, job.title, d))
  {
    LookupIsUnique(b, job.title, env.region);
    if Known(b, job) {
      NamesDiffer(b.spaceID, b.filesystems[IDOf(b, job)].nfsLabel, job.title);
    }
  }

  // Waiting for the filesystem of the label returns it, and it serves the job.
  lemma AwaitedServes(b: Backend, job: Job)
    requires Valid(b) && Known(b, job) && Accepted(b, job)
    ensures var (b', reply) := WaitForFilesystem(b, b.spaceID, IDOf(b, job), FilesystemActive);
            && Valid(b') && reply.Success? && b'.mtlsMode == b.mtlsMode && Serves(b', job, reply.value)
            && b'.filesystems[IDOf(b', job)] == reply.value && reply.value.tags == TagList(job.parameters)
  {
    hide QuotasOk, Activate;
    WaitForFilesystemKeepsValid(b, b.spaceID, IDOf(b, job), FilesystemActive);
    ActivateKeeps(b.filesystems[IDOf(b, job)]);
  }

  lemma WaitTracks(env: Env, b: Backend, req: Request, step: CreateStage, d: Delivery, job: Job)
    requires Valid(b) && Asks(req, job) && Accepted(b, job)
    requires (step.AwaitCreated? || step.AwaitExisting?) && Tracks(b, job, Provisioning(step))
    ensures var (b', next) := CreateStep(env, b, req, job.parameters, step, d);
            Valid(b') && Tracks(b', job, next)
  {
    hide IndexOk, QuotasOk, Activate, WaitForFilesystem, CapacityCompatible, VolumeContext;
    AwaitedServes(b, job);
  }

  lemma SquashTracks(env: Env, b: Backend, parameters: Parameters, step: CreateStage, d: Delivery, job: Job)
    requires Valid(b) && (step.ReadSquash? || step.WriteSquash? || step.AwaitSquash?)
    requires Tracks(b, job, Provisioning(step))
    ensures var (b', next) := SquashStep(env, b, parameters, step, d);
            Valid(b') && Tracks(b', job, next)
  {
    hide IndexOk, QuotasOk;
    match step
    case WriteSquash(f, mtlsMode, update) => WriteSquashTracks(env, b, parameters, f, mtlsMode, update, d, job);
    case AwaitSquash(f, mtlsMode) => AwaitSquashTracks(env, b, parameters, f, mtlsMode, d, job);
    case ReadSquash(_, _) =>
  }

  lemma WriteSquashTracks(env: Env, b: Backend, parameters: Parameters, f: Filesystem, mtlsMode: string,
                          update: PolicyUpdate, d: Delivery, job: Job)
    requires Valid(b) && Serves(b, job, f) && mtlsMode == b.mtlsMode
    ensures var (b', next) := SquashStep(env, b, parameters, WriteSquash(f, mtlsMode, update), d);
            Valid(b') && Tracks(b', job, next)
  {
    hide IndexOk, QuotasOk;
    UpdatePolicyKeepsValid(b, f.spaceID, f.id, update);
  }

  lemma AwaitSquashTracks(env: Env, b: Backend, parameters: Parameters, f: Filesystem, mtlsMode: string,
                          d: Delivery, job: Job)
    requires Valid(b) && Serves(b, job, f) && mtlsMode == b.mtlsMode
    ensures var (b', next) := SquashStep(env, b, parameters, AwaitSquash(f, mtlsMode), d);
            Valid(b') && Tracks(b', job, next)
  {
    hide IndexOk, QuotasOk;
    WaitForPolicyKeepsValid(b, f.spaceID, f.id, PolicyActive);
  }

  lemma CallCreateTracks(env: Env, b: Backend, req: Request, mtlsMode: string, d: Delivery, job: Job)
    requires Valid(b) && Asks(req, job) && mtlsMode == b.mtlsMode
    ensures var (b', next) := CreateStep(env, b, req, job.parameters, CallCreate(b.spaceID, mtlsMode), d);
            Valid(b') && Tracks(b', job, next)
  {
    hide QuotasOk;
    CreateKeepsValid(b, b.spaceID, OptionsFor(env, req, job.parameters));
  }

  lemma CreateStepTracks(env: Env, b: Backend, req: Request, step: CreateStage, d: Delivery, job: Job)
    requires Valid(b) && Asks(req, job) && Accepted(b, job) && job.title != "" && env.region != ""
    requires Tracks(b, job, Provisioning(step))
    ensures var (b', next) := CreateStep(env, b, req, job.parameters, step, d);
            Valid(b') && Tracks(b', job, next)
  {
    hide QuotasOk;
    CreateStepKeepsValid(env, b, req, job.parameters, step, d);
    match step
    case FindFilesystem(_, mtlsMode) => FindTracks(env, b, mtlsMode, d, job);
    case CallCreate(_, mtlsMode) => CallCreateTracks(env, b, req, mtlsMode, d, job);
    case AwaitCreated(_, _) => WaitTracks(env, b, req, step, d, job);
    case AwaitExisting(_, _) => WaitTracks(env, b, req, step, d, job);
    case ResolveSpace =>
    case ReadSpacePolicy(_) =>
    case _ => SquashTracks(env, b, job.parameters, step, d, job);
  }

  lemma StepTracks(env: Env, w: World, req: Request, pc: Pc, d: Delivery, job: Job)
    requires Valid(w.b) && Asks(req, job) && Accepted(w.b, job) && job.title != "" && env.region != ""
    requires Tracks(w.b, job, pc)
    ensures var (w', pc') := StepRpc(env, w, req, pc, d);
            Valid(w'.b) && Tracks(w'.b, job, pc')
  {
    if pc.Provisioning? {
      CreateStepTracks(env, w.b, req, pc.step, d, job);
    }
  }

  // The invariant
  ghost predicate OnTrack(s: System, reqs: set<Request>, job: Job)
    requires Valid(s.w.b)
  {
    && Accepted(s.w.b, job) && AllPeaceful(s.w.b, reqs, job)
    && (forall id | id in s.rpcs ::
          && s.rpcs[id].req in reqs && Fits(s.rpcs[id].req, s.rpcs[id].pc)
          && ResizesInRange(s.w.b, s.rpcs[id].pc, job))
    && forall id | id in s.rpcs && IsFor(s.rpcs[id].req, job) :: Tracks(s.w.b, job, s.rpcs[id].pc)
  }

  lemma PeacefulSteps(b: Backend, req: Request, pc: Pc, job: Job)
    requires Peaceful(b, req, job) && Fits(req, pc)
    ensures IsFor(req, job) ==> Asks(req, job)
    ensures DeletesApart(b, pc, job)
  {
    hide ParseVolumeHandle, CapacityCompatible;
  }

  // What an expand decides keeps the filesystem of the label inside the range.
  lemma DecidesInRange(b: Backend, req: Request, h: Handle, d: Delivery, job: Job)
    requires Valid(b) && Expands(req, h) && Peaceful(b, req, job) && Accepted(b, job)
    ensures ResizesInRange(b, Locked(LockedStep(b, req, ReadQuota(h), d).1), job)
  {
    if Live(b, h) {
      QuotaIsUnique(b, h.filesystemID);
      LiveIsBorn(b, h);
    }
  }

  lemma StepStaysInRange(env: Env, w: World, rpc: Rpc, d: Delivery, job: Job)
    requires Valid(w.b) && Fits(rpc.req, rpc.pc) && Peaceful(w.b, rpc.req, job) && Accepted(w.b, job)
    ensures var (w', pc') := StepRpc(env, w, rpc.req, rpc.pc, d);
            pc' != rpc.pc ==> ResizesInRange(w'.b, pc', job)
  {
    hide IndexOk, QuotasOk, Peaceful, Accepted;
    match rpc.pc
    case Locked(ReadQuota(k)) => DecidesInRange(w.b, rpc.req, k, d, job);
    case Locked(_) =>
    case _ => OthersSendNoResize(env, w, rpc, d);
  }

  lemma OthersSendNoResize(env: Env, w: World, rpc: Rpc, d: Delivery)
    requires Valid(w.b) && !rpc.pc.Locked?
    ensures var next := StepRpc(env, w, rpc.req, rpc.pc, d).1;
            next.Locked? ==> !next.at.WriteQuota?
  {
    hide IndexOk, QuotasOk, ParseVolumeHandle;
    if rpc.pc.Provisioning? && rpc.req.CreateRequest? && rpc.req.parameters.Some? {
      CreateStepIsUnlocked(env, w.b, rpc.req, rpc.req.parameters.value, rpc.pc.step, d);
    }
  }

  lemma RangeKept(b: Backend, b': Backend, pc: Pc, job: Job)
    requires Valid(b) && Valid(b') && ResizesInRange(b, pc, job) && forall k :: Framed(b, b', k, true, true)
    ensures ResizesInRange(b', pc, job)
  {
    hide IndexOk, QuotasOk, CapacityCompatible;
    if pc.Locked? && pc.at.WriteQuota? {
      assert Framed(b, b', pc.at.h, true, true);
    }
  }

  lemma ApplyKeepsPeace(env: Env, s: System, e: Event, reqs: set<Request>, job: Job)
    requires Valid(s.w.b) && AllPeaceful(s.w.b, reqs, job)
    ensures AllPeaceful(Apply(env, s, e).w.b, reqs, job)
    ensures forall id | id in s.rpcs && ResizesInRange(s.w.b, s.rpcs[id].pc, job) ::
              ResizesInRange(Apply(env, s, e).w.b, s.rpcs[id].pc, job)
  {
    hide IndexOk, QuotasOk, StepRpc, Elsewhere, ParseVolumeHandle, CapacityCompatible, ResizesInRange;
    var b' := Apply(env, s, e).w.b;
    forall k ensures Framed(s.w.b, b', k, true, true) {
      ApplyFrame(env, s, e, k);
    }
    forall id | id in s.rpcs && ResizesInRange(s.w.b, s.rpcs[id].pc, job)
      ensures ResizesInRange(b', s.rpcs[id].pc, job)
    {
      RangeKept(s.w.b, b', s.rpcs[id].pc, job);
    }
    forall k | Elsewhere(s.w.b, k, job) ensures Elsewhere(b', k, job) {
      ApartKept(s.w.b, b', k, job);
    }
  }

  lemma ApplyKeepsOnTrack(env: Env, s: System, e: Event, reqs: set<Request>, job: Job)
    requires Valid(s.w.b) && OnTrack(s, reqs, job) && (e.Start? ==> e.req in reqs)
    requires WellFormed(job.range) && job.title != "" && env.region != ""
    ensures OnTrack(Apply(env, s, e), reqs, job)
    ensures KeepsJob(s.w.b, Apply(env, s, e).w.b, job)
  {
    hide IndexOk, QuotasOk, StepRpc, Peaceful, Accepted, ResizesInRange, Tracks;
    ApplyKeepsPeace(env, s, e, reqs, job);
    if e.Step? && e.id in s.rpcs {
      var rpc := s.rpcs[e.id];
      PeacefulSteps(s.w.b, rpc.req, rpc.pc, job);
      StepFits(env, s.w, rpc.req, rpc.pc, e.d);
      StepStaysInRange(env, s.w, rpc, e.d, job);
      StepKeepsJob(env, s.w, rpc.req, rpc.pc, e.d, job);
      if IsFor(rpc.req, job) {
        StepTracks(env, s.w, rpc.req, rpc.pc, e.d, job);
      }
      var s' := Apply(env, s, e);
      assert s'.rpcs[e.id] == Rpc(rpc.req, StepRpc(env, s.w, rpc.req, rpc.pc, e.d).1);
      assert ResizesInRange(s'.w.b, rpc.pc, job) && ResizesInRange(s'.w.b, s'.rpcs[e.id].pc, job);
      forall id | id in s.rpcs && id != e.id && IsFor(s.rpcs[id].req, job)
        ensures Tracks(s'.w.b, job, s'.rpcs[id].pc)
      {
        TracksKept(s.w.b, s'.w.b, job, s.rpcs[id].pc);
      }
    } else {
      BeginsOnTrack(s.w.b, job);
    }
  }

  lemma BeginsOnTrack(b: Backend, job: Job)
    requires Valid(b)
    ensures KeepsJob(b, b, job) && Tracks(b, job, Begin) && ResizesInRange(b, Begin, job)
  {
    hide QuotasOk, Activate;
  }

  lemma {:induction false} OnTrackAlong(env: Env, s: System, events: seq<Event>, reqs: set<Request>, job: Job)
    requires Valid(s.w.b) && OnTrack(s, reqs, job) && Draws(events, reqs)
    requires WellFormed(job.range) && job.title != "" && env.region != ""
    ensures OnTrack(Run(env, s, events), reqs, job)
    decreases events
  {
    hide IndexOk, QuotasOk, StepRpc, OnTrack;
    if events != [] {
      ApplyKeepsOnTrack(env, s, events[0], reqs, job);
      OnTrackAlong(env, Apply(env, s, events[0]), events[1..], reqs, job);
    }
  }

  // The same volume, whose capacity may have been reported at different times
  predicate SameVolume(a: Volume, b: Volume) {
    a.volumeID == b.volumeID && a.context == b.context
  }

  // In every run of peaceful requests, starting with no filesystem of the label
  // or with one that the job accepts: no call is answered AlreadyExists, all
  // successful calls are answered with the same volume and a capacity inside the
  // range, and that volume is the one filesystem of the label.
  lemma CreateVolumeIsIdempotent(env: Env, s: System, events: seq<Event>, reqs: set<Request>, job: Job, i: nat, j: nat)
    requires Initial(s) && Draws(events, reqs) && Accepted(s.w.b, job) && AllPeaceful(s.w.b, reqs, job)
    requires WellFormed(job.range) && job.title != "" && env.region != ""
    requires var rpcs := Run(env, s, events).rpcs;
             i in rpcs && j in rpcs && IsFor(rpcs[i].req, job) && IsFor(rpcs[j].req, job)
             && rpcs[i].pc.Returned? && rpcs[j].pc.Returned?
    ensures var s' := Run(env, s, events);
            var first, second := s'.rpcs[i].pc.response, s'.rpcs[j].pc.response;
            && first != Error(AlreadyExists)
            && (first.VolumeCreated? && second.VolumeCreated? ==> SameVolume(first.volume, second.volume))
            && (first.VolumeCreated? ==>
                  && CapacityCompatible(first.volume.capacity, job.range)
                  && exists id ::
                    && id in s'.w.b.filesystems && s'.w.b.filesystems[id].nfsLabel == job.title
                    && first.volume.volumeID == FormatVolumeHandle(s'.w.b.spaceID, id))
  {
    hide QuotasOk, StepRpc, Run, Activate;
    OnTrackAlong(env, s, events, reqs, job);
    var s' := Run(env, s, events);
    assert Tracks(s'.w.b, job, s'.rpcs[i].pc) && Tracks(s'.w.b, job, s'.rpcs[j].pc);
    if s'.rpcs[i].pc.response.VolumeCreated? {
      var id := IDOf(s'.w.b, job);
      NamesDiffer(s'.w.b.spaceID, s'.w.b.filesystems[id].nfsLabel, job.title);
    }
  }

  // Whatever the run, no label is ever given to two filesystems.
  lemma LabelsAreUnique(b: Backend, i: int, j: int)
    requires Valid(b) && i in b.filesystems && j in b.filesystems
    ensures b.filesystems[i].nfsLabel == b.filesystems[j].nfsLabel <==> i == j
  {
  }

  // Uninterrupted calls

  // The world after a call of CreateVolume that no fault and no other RPC
  // disturbs, and where it ends, given enough steps
  ghost function CallCreateVolume(env: Env, w: World, req: Request, steps: nat): (World, Pc)
    requires Valid(w.b)
  {
    Alone(env, w, req, Begin, [], steps)
  }

  predicate Answerable(env: Env, b: Backend, req: Request, job: Job) {
    && Asks(req, job) && req.capabilitiesSupported && req.source.NoSource? && req.name != "" && job.title != ""
    && env.region != "" && env.region == b.region && SpaceFound(b, job.parameters.space)
  }

  // The RPC ends with success, and f is then the filesystem of the label.
  ghost predicate Ends(env: Env, w: World, req: Request, pc: Pc, steps: nat, job: Job, f: Filesystem)
    requires Valid(w.b)
  {
    EndsWith(w, Alone(env, w, req, pc, [], steps), job, f)
  }

  ghost predicate EndsWith(w: World, outcome: (World, Pc), job: Job, f: Filesystem)
    requires Valid(w.b)
  {
    var (w', pc') := outcome;
    && Valid(w'.b) && w'.b.spaceID == w.b.spaceID && w'.b.spaceLabel == w.b.spaceLabel
    && w'.b.mtlsMode == w.b.mtlsMode && w'.b.region == w.b.region
    && Mountable(w'.b, job, f) && pc' == Returned(VolumeCreated(CsiVolume(f, w'.b.mtlsMode)))
  }

  lemma AwaitSquashEnds(env: Env, w: World, req: Request, f: Filesystem, steps: nat, job: Job)
    requires Valid(w.b) && Asks(req, job) && Mountable(w.b, job, f) && steps >= 1
    ensures Ends(env, w, req, Provisioning(AwaitSquash(f, w.b.mtlsMode)), steps, job, f)
  {
    hide QuotasOk, Alone, Activate, CsiVolume;
    var pc := Provisioning(AwaitSquash(f, w.b.mtlsMode));
    AloneStep(env, w, req, pc, [], steps);
    var (w1, pc1) := StepRpc(env, w, req, pc, Delivered);
    AloneDone(env, w1, req, pc1, [], steps - 1);
  }

  lemma WriteSquashEnds(env: Env, w: World, req: Request, f: Filesystem, update: PolicyUpdate, steps: nat, job: Job)
    requires Valid(w.b) && Asks(req, job) && Mountable(w.b, job, f) && steps >= 2
    requires ValidPolicyUpdate(update) && update.linodeIDs.Some?
    requires forall id | id in update.linodeIDs.value :: id in w.b.linodes
    ensures Ends(env, w, req, Provisioning(WriteSquash(f, w.b.mtlsMode, update)), steps, job, f)
  {
    hide QuotasOk, Alone, Activate, CsiVolume;
    var pc := Provisioning(WriteSquash(f, w.b.mtlsMode, update));
    AloneStep(env, w, req, pc, [], steps);
    AwaitSquashEnds(env, StepRpc(env, w, req, pc, Delivered).0, req, f, steps - 1, job);
  }

  lemma FinalizeEnds(env: Env, w: World, req: Request, f: Filesystem, steps: nat, job: Job)
    requires Valid(w.b) && Asks(req, job) && Mountable(w.b, job, f) && steps >= 3
    ensures Ends(env, w, req, Finalize(env, f, w.b.mtlsMode, job.parameters), steps, job, f)
  {
    hide QuotasOk, Alone, SquashUpdate, CsiVolume, Activate;
    ActiveHasTarget(env.parse, f);
    var pc := Finalize(env, f, w.b.mtlsMode, job.parameters);
    if job.parameters.squash.Some? {
      var policy := w.b.policies[f.id];
      SquashUpdateIsAccepted(w.b, env.mode, policy, job.parameters.squash.value);
      AloneStep(env, w, req, pc, [], steps);
      match SquashUpdate(env.mode, policy, job.parameters.squash.value)
      case Some(update) => WriteSquashEnds(env, w, req, f, update, steps - 1, job);
      case None => AwaitSquashEnds(env, w, req, f, steps - 1, job);
    } else {
      AloneDone(env, w, req, pc, [], steps);
    }
  }

  lemma ActiveHasTarget(parse: AddressParser, f: Filesystem)
    ensures HasMountTarget(parse, Activate(f))
  {
    assert |"sanity-space-"| == 13;
  }

  lemma WaitEnds(env: Env, w: World, req: Request, step: CreateStage, steps: nat, job: Job)
    requires Valid(w.b) && Asks(req, job) && Known(w.b, job) && steps >= 4
    requires step.AwaitCreated? || (step.AwaitExisting? && Accepted(w.b, job))
    requires step.h == Handle(w.b.spaceID, IDOf(w.b, job)) && step.mtlsMode == w.b.mtlsMode
    ensures var f := Activate(w.b.filesystems[IDOf(w.b, job)]);
            Ends(env, w, req, Provisioning(step), steps, job, f)
  {
    hide QuotasOk, Alone;
    var f := Activate(w.b.filesystems[IDOf(w.b, job)]);
    ActivateKeeps(w.b.filesystems[IDOf(w.b, job)]);
    AloneStep(env, w, req, Provisioning(step), [], steps);
    FinalizeEnds(env, StepRpc(env, w, req, Provisioning(step), Delivered).0, req, f, steps - 1, job);
  }

  lemma WaitRejects(env: Env, w: World, req: Request, step: CreateStage, steps: nat, job: Job)
    requires Valid(w.b) && Asks(req, job) && Known(w.b, job) && steps >= 4 && step.AwaitExisting? && !Accepted(w.b, job)
    requires step.h == Handle(w.b.spaceID, IDOf(w.b, job))
    ensures Alone(env, w, req, Provisioning(step), [], steps).1 == Fail(AlreadyExists)
  {
    hide QuotasOk, Alone;
    AloneStep(env, w, req, Provisioning(step), [], steps);
    var (w1, pc1) := StepRpc(env, w, req, Provisioning(step), Delivered);
    AloneDone(env, w1, req, pc1, [], steps - 1);
  }

  lemma CreateEnds(env: Env, w: World, req: Request, steps: nat, job: Job)
    requires Valid(w.b) && Answerable(env, w.b, req, job) && !Known(w.b, job) && steps >= 5
    ensures Ends(env, w, req, Provisioning(CallCreate(w.b.spaceID, w.b.mtlsMode)), steps, job,
                 Activate(NewFilesystem(w.b.nextFilesystemID, w.b.spaceID, OptionsFor(env, req, job.parameters))))
  {
    hide QuotasOk, Alone;
    CreateIntroduces(env, w, req, job);
    var create := Provisioning(CallCreate(w.b.spaceID, w.b.mtlsMode));
    AloneStep(env, w, req, create, [], steps);
    WaitEnds(env, StepRpc(env, w, req, create, Delivered).0, req,
             AwaitCreated(Handle(w.b.spaceID, w.b.nextFilesystemID), w.b.mtlsMode), steps - 1, job);
  }

  lemma CreateIntroduces(env: Env, w: World, req: Request, job: Job)
    requires Valid(w.b) && Answerable(env, w.b, req, job) && !Known(w.b, job)
    ensures var options := OptionsFor(env, req, job.parameters);
            var b1 := CreateFilesystem(w.b, w.b.spaceID, options).0;
            && Valid(b1) && Known(b1, job) && IDOf(b1, job) == w.b.nextFilesystemID
            && b1.filesystems[w.b.nextFilesystemID] == NewFilesystem(w.b.nextFilesystemID, w.b.spaceID, options)
            && b1.spaceID == w.b.spaceID && b1.mtlsMode == w.b.mtlsMode
            && b1.spaceLabel == w.b.spaceLabel && b1.region == w.b.region
            && StepRpc(env, w, req, Provisioning(CallCreate(w.b.spaceID, w.b.mtlsMode)), Delivered) ==
               (w.(b := b1), Provisioning(AwaitCreated(Handle(w.b.spaceID, w.b.nextFilesystemID), w.b.mtlsMode)))
  {
    CreateKeepsValid(w.b, w.b.spaceID, OptionsFor(env, req, job.parameters));
  }

  // The answer to a call in the world w
  ghost predicate Answers(env: Env, w: World, req: Request, outcome: (World, Pc), job: Job)
    requires Valid(w.b) && Asks(req, job)
  {
    if !Known(w.b, job) then
      EndsWith(w, outcome, job,
               Activate(NewFilesystem(w.b.nextFilesystemID, w.b.spaceID, OptionsFor(env, req, job.parameters))))
    else if Accepted(w.b, job) then EndsWith(w, outcome, job, Activate(w.b.filesystems[IDOf(w.b, job)]))
    else outcome.1 == Fail(AlreadyExists)
  }

  lemma FindAnswers(env: Env, w: World, req: Request, steps: nat, job: Job, outcome: (World, Pc))
    requires Valid(w.b) && Answerable(env, w.b, req, job) && steps >= 6
    requires outcome == Alone(env, w, req, Provisioning(FindFilesystem(w.b.spaceID, w.b.mtlsMode)), [], steps)
    ensures Answers(env, w, req, outcome, job)
  {
    hide QuotasOk;
    LookupIsUnique(w.b, job.title, env.region);
    if !Known(w.b, job) {
      CreateEnds(env, w, req, steps - 1, job);
    } else {
      var id := IDOf(w.b, job);
      NamesDiffer(w.b.spaceID, w.b.filesystems[id].nfsLabel, job.title);
      var step := AwaitExisting(Handle(w.b.spaceID, id), w.b.mtlsMode);
      if Accepted(w.b, job) {
        WaitEnds(env, w, req, step, steps - 1, job);
      } else {
        WaitRejects(env, w, req, step, steps - 1, job);
      }
    }
  }

  // What an undisturbed CreateVolume answers: it creates a missing filesystem,
  // returns the existing one if it is acceptable, and otherwise rejects. Hence
  // a retry after any number of cut calls succeeds.
  lemma CreateVolumeAnswer(env: Env, w: World, req: Request, steps: nat, job: Job)
    requires Valid(w.b) && Answerable(env, w.b, req, job) && steps >= MAX_STEPS
    ensures Answers(env, w, req, CallCreateVolume(env, w, req, steps), job)
  {
    ComesToFind(env, w, req, steps, job);
    FindAnswers(env, w, req, steps - 3, job, CallCreateVolume(env, w, req, steps));
  }

  lemma ComesToFind(env: Env, w: World, req: Request, steps: nat, job: Job)
    requires Valid(w.b) && Answerable(env, w.b, req, job) && steps >= MAX_STEPS
    ensures Alone(env, w, req, Begin, [], steps) ==
            Alone(env, w, req, Provisioning(FindFilesystem(w.b.spaceID, w.b.mtlsMode)), [], steps - 3)
  {
    var find := Provisioning(FindFilesystem(w.b.spaceID, w.b.mtlsMode));
    var read := Provisioning(ReadSpacePolicy(w.b.spaceID));
    var resolve := Provisioning(ResolveSpace);
    assert Alone(env, w, req, read, [], steps - 2) == Alone(env, w, req, find, [], steps - 3);
    assert Alone(env, w, req, resolve, [], steps - 1) == Alone(env, w, req, read, [], steps - 2);
    assert Alone(env, w, req, Begin, [], steps) == Alone(env, w, req, resolve, [], steps - 1);
  }

  // After any such run, however cut and interleaved, an undisturbed retry
  // succeeds, with the volume that every earlier success returned.
  lemma RetryAfterAnyRun(env: Env, s: System, events: seq<Event>, reqs: set<Request>, req: Request, steps: nat,
                         job: Job)
    requires Initial(s) && Draws(events, reqs) && Accepted(s.w.b, job) && AllPeaceful(s.w.b, reqs, job)
    requires WellFormed(job.range) && Answerable(env, Run(env, s, events).w.b, req, job) && steps >= MAX_STEPS
    ensures Repeats(Run(env, s, events), CallCreateVolume(env, Run(env, s, events).w, req, steps).1, job)
  {
    hide IndexOk, QuotasOk, StepRpc, Run, Peaceful, Accepted;
    OnTrackAlong(env, s, events, reqs, job);
    RetryOnTrack(env, Run(env, s, events), reqs, req, steps, job);
  }

  // A success with the volume of every earlier success
  ghost predicate Repeats(s: System, pc: Pc, job: Job) {
    && pc.Returned? && pc.response.VolumeCreated?
    && forall i | i in s.rpcs && IsFor(s.rpcs[i].req, job) && s.rpcs[i].pc.Returned?
                  && s.rpcs[i].pc.response.VolumeCreated? ::
         SameVolume(s.rpcs[i].pc.response.volume, pc.response.volume)
  }

  lemma RetryOnTrack(env: Env, s': System, reqs: set<Request>, req: Request, steps: nat, job: Job)
    requires Valid(s'.w.b) && OnTrack(s', reqs, job)
    requires Answerable(env, s'.w.b, req, job) && steps >= MAX_STEPS
    ensures Repeats(s', CallCreateVolume(env, s'.w, req, steps).1, job)
  {
    hide IndexOk, QuotasOk, Alone, StepRpc;
    CreateVolumeAnswer(env, s'.w, req, steps, job);
    forall i | i in s'.rpcs && IsFor(s'.rpcs[i].req, job) && s'.rpcs[i].pc.Returned?
        && s'.rpcs[i].pc.response.VolumeCreated?
      ensures SameVolume(s'.rpcs[i].pc.response.volume, CallCreateVolume(env, s'.w, req, steps).1.response.volume)
    {
      assert Tracks(s'.w.b, job, s'.rpcs[i].pc);
    }
  }

  // Creating a new label and then retrying: the retry returns the same volume
  // exactly when the capacity range is well-formed, which the driver does not
  // check; otherwise it is rejected.
  lemma RetrySucceedsIffWellFormed(env: Env, w: World, req: Request, steps: nat, job: Job)
    requires Valid(w.b) && Answerable(env, w.b, req, job) && !Known(w.b, job) && steps >= MAX_STEPS
    ensures var (w1, pc1) := CallCreateVolume(env, w, req, steps);
            && Valid(w1.b) && pc1.Returned? && pc1.response.VolumeCreated?
            && CallCreateVolume(env, w1, req, steps).1 == if WellFormed(job.range) then pc1 else Fail(AlreadyExists)
  {
    CreateVolumeAnswer(env, w, req, steps, job);
    var (w1, pc1) := CallCreateVolume(env, w, req, steps);
    CreateVolumeAnswer(env, w1, req, steps, job);
    CreatedCapacityIsCompatible(job.range);
  }
}
