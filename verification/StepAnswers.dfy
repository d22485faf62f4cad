// What one step of a controller RPC may answer: where a success comes from, when
// a key is refused, and what becomes of failed calls.
module StepAnswers {
  import opened Wrappers
  import opened Text
  import opened Handles
  import opened LinodeContract
  import opened Transport
  import opened Status
  import opened ControllerSteps
  import opened VolumeFrames
  import opened Ownership

  // Taken keys

  // The requests that go on to take their key, by their fields
  predicate WantsKey(req: Request) {
    match req
    case PublishRequest(volumeID, nodeID, supported) => volumeID != "" && nodeID != "" && supported
    case UnpublishRequest(volumeID, nodeID) => volumeID != "" && nodeID != ""
    case ExpandRequest(volumeID, range) => ParseVolumeHandle(volumeID).Some? && Sensible(range)
    case _ => false
  }

  // A capacity range that an expand accepts: it is given, not negative, asks for
  // something, and does not require more than the limit.
  predicate Sensible(range: Option<CapacityRange>) {
    match range
    case None => false
    case Some(CapacityRange(required, limit)) =>
      && required >= 0 && limit >= 0 && (required > 0 || limit > 0)
      && (required > 0 && limit > 0 ==> required <= limit)
  }

  lemma SensibleIsValid(range: Option<CapacityRange>)
    ensures ExpandRangeValid(range) <==> Sensible(range)
  {
  }

  // A request that wants a taken key is aborted, and changes nothing; no other
  // first step is. A request that gets its key holds it from then on.
  lemma TakenKeyAborts(env: Env, w: World, req: Request, d: Delivery)
    requires Valid(w.b)
    ensures var (w', pc') := StepRpc(env, w, req, Begin, d);
            && (pc' == Returned(Error(Aborted)) <==> WantsKey(req) && req.volumeID in w.locks)
            && (pc' == Returned(Error(Aborted)) ==> w' == w)
            && (WantsKey(req) && req.volumeID !in w.locks ==>
                  pc'.Locked? && w' == w.(locks := w.locks + {req.volumeID}))
  {
    hide IndexOk, QuotasOk, ParseVolumeHandle, Atoi;
    EmptyIsNoHandle();
    if req.ExpandRequest? {
      SensibleIsValid(req.range);
    }
  }

  // Where answers come from

  // The step that may lead an RPC of this request to this answer
  predicate Origin(req: Request, pc: Pc, d: Delivery, response: Response) {
    match response
    case VolumePublished => pc == Locked(Unlock(response)) && req.PublishRequest?
    case VolumeExpanded(_) => pc == Locked(Unlock(response)) && req.ExpandRequest?
    case VolumeUnpublished =>
      && req.UnpublishRequest?
      && (pc == Locked(Unlock(response)) || (pc.Begin? && req.volumeID != "" && req.nodeID == ""))
    case VolumeDeleted =>
      && req.DeleteRequest?
      && if pc.Begin? then req.volumeID != "" && ParseVolumeHandle(req.volumeID) == None
         else d.Delivered? && pc.Loose? && pc.stage.CallDelete?
    case VolumeInfo(_, _) => d.Delivered? && pc.Loose? && pc.stage.ReadStatus?
    case VolumeCreated(_) =>
      && d.Delivered? && req.CreateRequest? && req.parameters.Some? && pc.Provisioning?
      && if req.parameters.value.squash.Some? then pc.step.AwaitSquash?
         else pc.step.AwaitCreated? || pc.step.AwaitExisting?
    case Error(Aborted) => pc.Begin? && WantsKey(req)
    case Error(_) => true
  }

  // The releases belong to their requests, too.
  predicate Releases(req: Request, pc: Pc) {
    match pc
    case Locked(Unlock(VolumePublished)) => req.PublishRequest?
    case Locked(Unlock(VolumeExpanded(_))) => req.ExpandRequest?
    case Locked(Unlock(VolumeUnpublished)) => req.UnpublishRequest?
    case Locked(Unlock(Error(code))) => code != Aborted
    case Locked(Unlock(_)) => false
    case Loose(CallDelete(_)) => req.DeleteRequest?
    case _ => true
  }

  lemma LockedStepReleases(b: Backend, req: Request, at: LockedStage, d: Delivery)
    requires Valid(b) && Fits(req, Locked(at)) && !at.Unlock?
    ensures Releases(req, Locked(LockedStep(b, req, at, d).1))
  {
    hide IndexOk, QuotasOk, UpdatePolicy, WaitForPolicy, UpdateFilesystem, ListQuotas, ParseVolumeHandle, Atoi;
  }

  lemma StepReleases(env: Env, w: World, req: Request, pc: Pc, d: Delivery)
    requires Valid(w.b) && Fits(req, pc) && Releases(req, pc)
    ensures Releases(req, StepRpc(env, w, req, pc, d).1)
  {
    hide IndexOk, QuotasOk, ParseVolumeHandle, Atoi, CreateStep, LooseStep;
    match pc
    case Begin =>
    case Locked(at) =>
      if !at.Unlock? {
        LockedStepReleases(w.b, req, at, d);
      }
    case Loose(stage) => LooseStepReturns(env, w.b, stage, d);
    case Provisioning(step) =>
      if req.CreateRequest? && req.parameters.Some? {
        CreateStepIsUnlocked(env, w.b, req, req.parameters.value, step, d);
        CreateStaysTight(env, w.b, req, req.parameters.value, step, d);
      }
    case Returned(_) =>
  }

  lemma LooseStepReturns(env: Env, b: Backend, stage: LooseStage, d: Delivery)
    requires Valid(b)
    ensures var next := LooseStep(env, b, stage, d).1;
            next.Returned? || (next.Loose? && next.stage.ReadStatus?)
  {
    hide IndexOk, QuotasOk, CsiVolume;
  }

  lemma CreateStaysTight(env: Env, b: Backend, req: Request, parameters: Parameters, step: CreateStage, d: Delivery)
    requires Valid(b) && req.CreateRequest?
    ensures var next := CreateStep(env, b, req, parameters, step, d).1;
            next.Provisioning? || next.Returned?
  {
    hide IndexOk, QuotasOk, CsiVolume;
  }

  lemma LooseOrigin(env: Env, b: Backend, stage: LooseStage, d: Delivery)
    requires Valid(b)
    ensures match LooseStep(env, b, stage, d).1
            case Returned(VolumeDeleted) => d.Delivered? && stage.CallDelete?
            case Returned(VolumeInfo(_, _)) => d.Delivered? && stage.ReadStatus?
            case Returned(Error(code)) => code != Aborted
            case Returned(_) => false
            case _ => true
  {
    hide IndexOk, QuotasOk, CsiVolume;
  }

  lemma CreateOrigin(env: Env, b: Backend, req: Request, step: CreateStage, d: Delivery)
    requires Valid(b) && req.CreateRequest? && req.parameters.Some?
    ensures match CreateStep(env, b, req, req.parameters.value, step, d).1
            case Returned(VolumeCreated(volume)) => Origin(req, Provisioning(step), d, VolumeCreated(volume))
                                                    || (d.Delivered? && step.AwaitSquash?)
            case Returned(Error(code)) => code != Aborted
            case Returned(_) => false
            case _ => true
  {
    hide IndexOk, QuotasOk, CsiVolume;
  }

  // Whenever an RPC returns, it does so by a step from which this answer may come.
  lemma AnswersHaveOrigins(env: Env, w: World, rpc: Rpc, d: Delivery, h: Handle)
    requires Valid(w.b) && Fits(rpc.req, rpc.pc) && Releases(rpc.req, rpc.pc) && Placed(w.b, h, rpc)
    requires !rpc.pc.Returned? && StepRpc(env, w, rpc.req, rpc.pc, d).1.Returned?
    ensures Origin(rpc.req, rpc.pc, d, StepRpc(env, w, rpc.req, rpc.pc, d).1.response)
  {
    hide IndexOk, QuotasOk, ParseVolumeHandle, Atoi, CreateStep, LooseStep, LockedStep;
    match rpc.pc
    case Begin =>
      TakenKeyAborts(env, w, rpc.req, d);
      BeginOrigin(env, w, rpc.req, d);
    case Locked(_) =>
    case Loose(stage) => LooseOrigin(env, w.b, stage, d);
    case Provisioning(step) => CreateOrigin(env, w.b, rpc.req, step, d);
  }

  lemma BeginOrigin(env: Env, w: World, req: Request, d: Delivery)
    requires Valid(w.b) && BeginStep(w, req, d).1.Returned?
    ensures BeginStep(w, req, d).1 == Returned(Error(Aborted)) || Origin(req, Begin, d, BeginStep(w, req, d).1.response)
  {
    hide IndexOk, QuotasOk;
  }

  // Failed calls

  // The status code for a fault; waiting distinguishes what ended the context.
  function FaultCode(fault: Fault, waiting: bool): Code {
    match fault
    case Unauthorized => PermissionDenied
    case TemporarilyUnavailable => Unavailable
    case BrokenTransport => Internal
    case ContextCanceled => if waiting then Canceled else Internal
    case ContextExpired => if waiting then DeadlineExceeded else Internal
  }

  predicate Waiting(pc: Pc) {
    || (pc.Locked? && pc.at.AwaitPolicy?)
    || (pc.Provisioning? && (pc.step.AwaitCreated? || pc.step.AwaitExisting? || pc.step.AwaitSquash?))
  }

  // The stages whose next step is a call on the API
  predicate Calls(pc: Pc) {
    (pc.Locked? && !pc.at.Unlock?) || pc.Loose? || pc.Provisioning?
  }

  // An RPC ends with this error; if it holds its lock, by way of the release.
  function EndsWithError(pc: Pc, code: Code): Pc {
    if pc.Locked? then Locked(Unlock(Error(code))) else Returned(Error(code))
  }

  lemma LockedFault(b: Backend, req: Request, at: LockedStage, d: Delivery)
    requires Valid(b) && Fits(req, Locked(at)) && !at.Unlock? && !d.Delivered?
    ensures var (b', next) := LockedStep(b, req, at, d);
            && next == Unlock(Error(FaultCode(d.fault, at.AwaitPolicy?)))
            && b' == if d.RequestLost? then b else LockedStep(b, req, at, Delivered).0
  {
    hide IndexOk, QuotasOk, UpdatePolicy, WaitForPolicy, UpdateFilesystem, ListQuotas, ParseVolumeHandle, Atoi;
  }

  lemma LooseFault(env: Env, b: Backend, stage: LooseStage, d: Delivery)
    requires Valid(b) && !d.Delivered?
    ensures var (b', next) := LooseStep(env, b, stage, d);
            && next == Returned(Error(FaultCode(d.fault, false)))
            && b' == if d.RequestLost? then b else LooseStep(env, b, stage, Delivered).0
  {
    hide IndexOk, QuotasOk, DeleteFilesystem, CsiVolume;
  }

  lemma CreateFault(env: Env, b: Backend, req: Request, parameters: Parameters, step: CreateStage, d: Delivery)
    requires Valid(b) && req.CreateRequest? && !d.Delivered?
    ensures var (b', next) := CreateStep(env, b, req, parameters, step, d);
            && next == Returned(Error(FaultCode(d.fault, Waiting(Provisioning(step)))))
            && b' == if d.RequestLost? then b else CreateStep(env, b, req, parameters, step, Delivered).0
  {
    hide IndexOk, QuotasOk, CreateFilesystem, WaitForFilesystem, UpdatePolicy, WaitForPolicy, CsiVolume;
  }

  // A call that is lost ends the RPC with the code of the fault. It has changed
  // nothing if the request was lost, and otherwise what the call does.
  lemma FaultsAreErrors(env: Env, w: World, rpc: Rpc, d: Delivery, h: Handle)
    requires Valid(w.b) && Fits(rpc.req, rpc.pc) && Placed(w.b, h, rpc) && Calls(rpc.pc) && !d.Delivered?
    ensures var (w', pc') := StepRpc(env, w, rpc.req, rpc.pc, d);
            && pc' == EndsWithError(rpc.pc, FaultCode(d.fault, Waiting(rpc.pc)))
            && w' == if d.RequestLost? then w else StepRpc(env, w, rpc.req, rpc.pc, Delivered).0
  {
    hide IndexOk, QuotasOk, LockedStep, LooseStep, CreateStep;
    match rpc.pc
    case Locked(at) => LockedFault(w.b, rpc.req, at, d);
    case Loose(stage) => LooseFault(env, w.b, stage, d);
    case Provisioning(step) => CreateFault(env, w.b, rpc.req, rpc.req.parameters.value, step, d);
  }

  // The filesystem that the next call is about
  function TargetOf(pc: Pc): Option<Handle> {
    match pc
    case Locked(ReadPolicy(h, _)) => Some(h)
    case Locked(WritePolicy(h, _)) => Some(h)
    case Locked(AwaitPolicy(h)) => Some(h)
    case Locked(ReadQuota(h)) => Some(h)
    case Locked(WriteQuota(h, _)) => Some(h)
    case Loose(ReadFilesystem(h)) => Some(h)
    case Loose(ReadStatus(h, _)) => Some(h)
    case Loose(CallDelete(h)) => Some(h)
    case Provisioning(AwaitCreated(h, _)) => Some(h)
    case Provisioning(AwaitExisting(h, _)) => Some(h)
    case Provisioning(ReadSquash(f, _)) => Some(HandleOf(f))
    case Provisioning(WriteSquash(f, _, _)) => Some(HandleOf(f))
    case Provisioning(AwaitSquash(f, _)) => Some(HandleOf(f))
    case _ => None
  }

  // Where a missing filesystem leads
  function Missing(req: Request, pc: Pc): Pc {
    match pc
    case Loose(CallDelete(_)) => Returned(VolumeDeleted)
    case Locked(ReadPolicy(_, _)) =>
      if req.UnpublishRequest? then Locked(Unlock(VolumeUnpublished)) else EndsWithError(pc, NotFoundCode)
    case _ => EndsWithError(pc, NotFoundCode)
  }

  // A filesystem that does not exist, or has been deleted meanwhile: an unpublish
  // that is about to read its policy and a delete succeed, all else is NotFound.
  lemma MissingIsNotFound(env: Env, w: World, rpc: Rpc, h: Handle)
    requires Valid(w.b) && Fits(rpc.req, rpc.pc) && Placed(w.b, h, rpc)
    requires TargetOf(rpc.pc) == Some(h) && !Live(w.b, h)
    ensures StepRpc(env, w, rpc.req, rpc.pc, Delivered) == (w, Missing(rpc.req, rpc.pc))
  {
    hide IndexOk, QuotasOk, CsiVolume, ParseVolumeHandle, Atoi, SortedIDs;
  }
}
