// The controller RPCs as step machines. Between two steps of one RPC any number
// of steps of other RPCs may run; a step performs at most one call on the
// Linode API, on the lock set, or on the Kubernetes API.
module ControllerSteps {
  import opened Wrappers
  import opened Text
  import opened Handles
  import opened Labels
  import opened NfsModel
  import opened MountTargets
  import opened LinodeContract
  import opened Transport
  import opened AccessPolicies
  import opened Status

  // Errors

  // linodeError
  function LinodeErrorCode(error: ClientError): Code {
    match error
    case Api(NotFound) => NotFoundCode
    case Api(BadRequest) => InvalidArgument
    case Api(Conflict) => FailedPrecondition
    case Network(Unauthorized) => PermissionDenied
    case Network(TemporarilyUnavailable) => Unavailable
    case Network(_) => Internal
  }

  // linodeWaitError
  function WaitErrorCode(error: ClientError): Code {
    match error
    case Network(ContextCanceled) => Canceled
    case Network(ContextExpired) => DeadlineExceeded
    case _ => LinodeErrorCode(error)
  }

  // Requests and responses

  datatype CapacityRange = CapacityRange(required: int, limit: int)

  datatype SpaceReference = SpaceByID(spaceID: int) | SpaceByLabel(title: string)

  datatype ContentSource = NoSource | FromSnapshot(snapshotID: string) | OtherSource

  // Parsed StorageClass parameters
  datatype Parameters = Parameters(space: SpaceReference, tags: Option<seq<string>>, squash: Option<SquashPolicy>)

  datatype Request =
    | CreateRequest(name: string, capabilitiesSupported: bool, source: ContentSource,
                    parameters: Option<Parameters>, range: Option<CapacityRange>)
    | DeleteRequest(volumeID: string)
    | PublishRequest(volumeID: string, nodeID: string, capabilitySupported: bool)
    | UnpublishRequest(volumeID: string, nodeID: string)
    | ExpandRequest(volumeID: string, range: Option<CapacityRange>)
    | GetRequest(volumeID: string)

  datatype Volume = Volume(volumeID: string, capacity: int, context: map<string, string>)

  datatype Response =
    | Error(code: Code)
    | VolumeCreated(volume: Volume)
    | VolumeDeleted
    | VolumePublished
    | VolumeUnpublished
    | VolumeExpanded(capacity: int)
    | VolumeInfo(volume: Volume, publishedNodeIDs: seq<string>)

  function CsiVolume(filesystem: Filesystem, mtlsMode: string): Volume {
    Volume(FormatVolumeHandle(filesystem.spaceID, filesystem.id), filesystem.maxCapacity,
           VolumeContext(filesystem, mtlsMode))
  }

  // Capacity rules

  function Required(range: Option<CapacityRange>): int {
    if range.Some? then range.value.required else 0
  }

  function Limit(range: Option<CapacityRange>): int {
    if range.Some? then range.value.limit else 0
  }

  function RequestedCapacity(range: Option<CapacityRange>): int {
    if Required(range) > 0 then Required(range) else Limit(range)
  }

  // validateExistingFilesystemCapacity
  predicate CapacityCompatible(capacity: int, range: Option<CapacityRange>) {
    capacity == 0 || !(Required(range) > capacity || (Limit(range) != 0 && capacity > Limit(range)))
  }

  // The checks of ControllerExpandVolume before it takes the lock.
  predicate ExpandRangeValid(range: Option<CapacityRange>) {
    && range.Some?
    && !(Required(range) < 0 || Limit(range) < 0
         || (Required(range) > 0 && Limit(range) > 0 && Required(range) > Limit(range)))
    && RequestedCapacity(range) > 0
  }

  datatype ExpandDecision = KeepCapacity | RejectShrink | Resize(capacity: int)

  function DecideExpand(current: int, range: Option<CapacityRange>): ExpandDecision
  {
    var requested := RequestedCapacity(range);
    if (current >= Required(range) && (Limit(range) == 0 || current <= Limit(range))) || requested == current then
      KeepCapacity
    else if requested < current then RejectShrink
    else Resize(requested)
  }

  function FirstRoot(quotas: seq<Quota>): Option<Quota> {
    if quotas == [] then None
    else if quotas[0].isRoot then Some(quotas[0])
    else FirstRoot(quotas[1..])
  }

  // State

  // The region that node discovery yields, the policy mode, and the address parser.
  datatype Env = Env(region: string, mode: AccessPolicyMode, parse: AddressParser)

  datatype World = World(b: Backend, locks: set<string>)

  // The world with another access policy
  function WithPolicy(w: World, filesystemID: int, policy: Policy): World {
    w.(b := w.b.(policies := w.b.policies[filesystemID := policy]))
  }

  // Where an RPC stands: the names say what it does next.

  // ControllerPublishVolume, ControllerUnpublishVolume and
  // ControllerExpandVolume, which hold the lock; Unlock is the deferred release.
  datatype LockedStage =
    | ReadPolicy(h: Handle, node: int)
    | WritePolicy(h: Handle, update: PolicyUpdate)
    | AwaitPolicy(h: Handle)
    | ReadQuota(h: Handle)
    | WriteQuota(h: Handle, capacity: int)
    | Unlock(response: Response)

  // ControllerGetVolume and DeleteVolume
  datatype LooseStage =
    | ReadFilesystem(h: Handle)
    | ReadStatus(h: Handle, filesystem: Filesystem)
    | CallDelete(h: Handle)

  // CreateVolume, which takes no lock
  datatype CreateStage =
    | ResolveSpace
    | ReadSpacePolicy(spaceID: int)
    | FindFilesystem(spaceID: int, mtlsMode: string)
    | CallCreate(spaceID: int, mtlsMode: string)
    | AwaitCreated(h: Handle, mtlsMode: string)
    | AwaitExisting(h: Handle, mtlsMode: string)
    | ReadSquash(filesystem: Filesystem, mtlsMode: string)
    | WriteSquash(filesystem: Filesystem, mtlsMode: string, update: PolicyUpdate)
    | AwaitSquash(filesystem: Filesystem, mtlsMode: string)

  datatype Pc =
    | Begin
    | Locked(at: LockedStage)
    | Loose(stage: LooseStage)
    | Provisioning(step: CreateStage)
    | Returned(response: Response)

  predicate LocksVolume(req: Request) {
    req.PublishRequest? || req.UnpublishRequest? || req.ExpandRequest?
  }

  function Fail(code: Code): Pc {
    Returned(Error(code))
  }

  function Acquire(w: World, key: string, next: LockedStage): (World, Pc) {
    if key in w.locks then (w, Fail(Aborted)) else (w.(locks := w.locks + {key}), Locked(next))
  }

  // parseVolumeHandleAndNodeID, which the driver runs while holding the lock
  function FirstStage(volumeID: string, nodeID: string): LockedStage {
    match (ParseVolumeHandle(volumeID), Atoi(nodeID))
    case (Some(h), Some(node)) => ReadPolicy(h, node)
    case _ => Unlock(Error(InvalidArgument))
  }

  // The steps

  function BeginStep(w: World, req: Request, d: Delivery): (World, Pc)
  {
    match req
    case CreateRequest(name, supported, source, parameters, _) =>
      (w,
       if name == "" || !supported then Fail(InvalidArgument)
       else if source.OtherSource? || source == FromSnapshot("") then Fail(InvalidArgument)
       else if source.FromSnapshot? then
         Fail(if ParseSnapshotHandle(source.snapshotID).None? then NotFoundCode else Unimplemented)
       else if parameters.None? then Fail(InvalidArgument)
       else if !d.Delivered? then Fail(FailedPrecondition)
       else Provisioning(ResolveSpace))
    case DeleteRequest(volumeID) =>
      (w,
       if volumeID == "" then Fail(InvalidArgument)
       else
         match ParseVolumeHandle(volumeID)
         case None => Returned(VolumeDeleted)
         case Some(h) => Loose(CallDelete(h)))
    case PublishRequest(volumeID, nodeID, supported) =>
      if volumeID == "" || nodeID == "" || !supported then (w, Fail(InvalidArgument))
      else Acquire(w, volumeID, FirstStage(volumeID, nodeID))
    case UnpublishRequest(volumeID, nodeID) =>
      if volumeID == "" then (w, Fail(InvalidArgument))
      else if nodeID == "" then (w, Returned(VolumeUnpublished))
      else Acquire(w, volumeID, FirstStage(volumeID, nodeID))
    case ExpandRequest(volumeID, range) =>
      if volumeID == "" || ParseVolumeHandle(volumeID).None? || !ExpandRangeValid(range) then (w, Fail(InvalidArgument))
      else Acquire(w, volumeID, ReadQuota(ParseVolumeHandle(volumeID).value))
    case GetRequest(volumeID) =>
      (w,
       if volumeID == "" then Fail(InvalidArgument)
       else
         match ParseVolumeHandle(volumeID)
         case None => Fail(InvalidArgument)
         case Some(h) => Loose(ReadFilesystem(h)))
  }

  // What a publish or unpublish does with the policy it read.
  function DecidePolicy(req: Request, h: Handle, node: int, policy: Policy): LockedStage
    requires req.PublishRequest? || req.UnpublishRequest?
  {
    var ids := NonZero(policy.acl);
    if req.PublishRequest? then
      if node in ids && policy.enabled then Unlock(VolumePublished)
      else WritePolicy(h, PolicyUpdateFor(policy, true, With(ids, node)))
    else if node !in ids then Unlock(VolumeUnpublished)
    else WritePolicy(h, PolicyUpdateFor(policy, policy.enabled, Without(ids, node)))
  }

  function ReadPolicyStep(b: Backend, req: Request, h: Handle, node: int, d: Delivery): LockedStage
    requires Valid(b)
    requires req.PublishRequest? || req.UnpublishRequest?
  {
    match Received(d, GetPolicy(b, h.spaceID, h.filesystemID))
    case Success(policy) => DecidePolicy(req, h, node, policy)
    case Failure(error) =>
      if req.UnpublishRequest? && error == Api(NotFound) then Unlock(VolumeUnpublished)
      else Unlock(Error(LinodeErrorCode(error)))
  }

  function DecideQuota(h: Handle, range: Option<CapacityRange>, quotas: seq<Quota>): LockedStage
  {
    match FirstRoot(quotas)
    case None => Unlock(Error(FailedPrecondition))
    case Some(quota) =>
      match quota.maxCapacity
      case None => Unlock(Error(FailedPrecondition))
      case Some(current) =>
        match DecideExpand(current, range)
        case KeepCapacity => Unlock(VolumeExpanded(current))
        case RejectShrink => Unlock(Error(InvalidArgument))
        case Resize(capacity) => WriteQuota(h, capacity)
  }

  function Done(req: Request): Response {
    if req.PublishRequest? then VolumePublished else VolumeUnpublished
  }

  // The calls made while holding the lock. A stage that the RPC of this kind
  // never reaches stays put.
  ghost function LockedStep(b: Backend, req: Request, at: LockedStage, d: Delivery): (Backend, LockedStage)
    requires Valid(b)
  {
    match at
    case ReadPolicy(h, node) =>
      (b, if req.PublishRequest? || req.UnpublishRequest? then ReadPolicyStep(b, req, h, node, d) else at)
    case WritePolicy(h, update) =>
      var outcome := UpdatePolicy(b, h.spaceID, h.filesystemID, update);
      (Effect(d, b, outcome),
       match Received(d, outcome.1)
       case Success(_) => AwaitPolicy(h)
       case Failure(error) => Unlock(Error(LinodeErrorCode(error))))
    case AwaitPolicy(h) =>
      var outcome := WaitForPolicy(b, h.spaceID, h.filesystemID, PolicyActive);
      (Effect(d, b, outcome),
       match Received(d, outcome.1)
       case Success(_) => Unlock(Done(req))
       case Failure(error) => Unlock(Error(WaitErrorCode(error))))
    case ReadQuota(h) =>
      (b,
       match Received(d, ListQuotas(b, h.spaceID, h.filesystemID))
       case Success(quotas) => if req.ExpandRequest? then DecideQuota(h, req.range, quotas) else at
       case Failure(error) => Unlock(Error(LinodeErrorCode(error))))
    case WriteQuota(h, capacity) =>
      var outcome := UpdateFilesystem(b, h.spaceID, h.filesystemID, Some(capacity));
      (Effect(d, b, outcome),
       match Received(d, outcome.1)
       case Success(_) => Unlock(VolumeExpanded(capacity))
       case Failure(error) => Unlock(Error(LinodeErrorCode(error))))
    case Unlock(_) => (b, at)
  }

  ghost function LooseStep(env: Env, b: Backend, stage: LooseStage, d: Delivery): (Backend, Pc)
    requires Valid(b)
  {
    match stage
    case ReadFilesystem(h) =>
      (b,
       match Received(d, GetFilesystem(b, h.spaceID, h.filesystemID))
       case Failure(error) => Fail(LinodeErrorCode(error))
       case Success(filesystem) =>
         if !HasMountTarget(env.parse, filesystem) then Fail(FailedPrecondition) else Loose(ReadStatus(h, filesystem)))
    case ReadStatus(h, filesystem) =>
      (b,
       match Received(d, GetPolicy(b, h.spaceID, h.filesystemID))
       case Failure(error) => Fail(LinodeErrorCode(error))
       case Success(policy) => Returned(VolumeInfo(CsiVolume(filesystem, ""), PublishedNodeIDs(policy))))
    case CallDelete(h) =>
      var outcome := DeleteFilesystem(b, h.spaceID, h.filesystemID);
      (Effect(d, b, outcome),
       match Received(d, outcome.1)
       case Success(_) => Returned(VolumeDeleted)
       case Failure(error) =>
         if error == Api(NotFound) then Returned(VolumeDeleted) else Fail(LinodeErrorCode(error)))
  }

  function ResolveSpaceStep(b: Backend, space: SpaceReference, d: Delivery): Pc
  {
    match space
    case SpaceByID(spaceID) =>
      (match Received(d, GetSpace(b, spaceID))
       case Success(id) => Provisioning(ReadSpacePolicy(id))
       case Failure(error) => Fail(LinodeErrorCode(error)))
    case SpaceByLabel(title) =>
      match Received(d, Success(ListSpaces(b, title)))
      case Success(ids) =>
        if |ids| == 0 then Fail(NotFoundCode)
        else if |ids| == 1 then Provisioning(ReadSpacePolicy(ids[0]))
        else Fail(FailedPrecondition)
      case Failure(error) => Fail(LinodeErrorCode(error))
  }

  // The space of the account is the one that a request refers to.
  predicate SpaceFound(b: Backend, space: SpaceReference) {
    match space
    case SpaceByID(spaceID) => spaceID == b.spaceID
    case SpaceByLabel(title) => title == "" || title == b.spaceLabel
  }

  // findExistingFilesystem
  ghost function FindStep(env: Env, b: Backend, spaceID: int, mtlsMode: string, title: string, d: Delivery): Pc
  {
    match Received(d, ListFilesystems(b, spaceID, title, env.region))
    case Failure(error) => Fail(LinodeErrorCode(error))
    case Success(filesystems) =>
      if |filesystems| == 0 then Provisioning(CallCreate(spaceID, mtlsMode))
      else if |filesystems| == 1 then
        var found := filesystems[0];
        if found.nfsLabel != title || found.region != env.region || found.spaceID != spaceID then Fail(AlreadyExists)
        else Provisioning(AwaitExisting(Handle(found.spaceID, found.id), mtlsMode))
      else Fail(FailedPrecondition)
  }

  function OptionsFor(env: Env, req: Request, parameters: Parameters): CreateOptions
    requires req.CreateRequest?
  {
    CreateOptions(LabelOf(req.name), env.region, RequestedCapacity(req.range), Some([NFSv4]), parameters.tags)
  }

  function TagList(parameters: Parameters): seq<string> {
    if parameters.tags.Some? then parameters.tags.value else []
  }

  // finalizeFilesystemVolume, up to its first call
  function Finalize(env: Env, filesystem: Filesystem, mtlsMode: string, parameters: Parameters): Pc
  {
    if !HasMountTarget(env.parse, filesystem) then Fail(FailedPrecondition)
    else if parameters.squash.Some? then Provisioning(ReadSquash(filesystem, mtlsMode))
    else Returned(VolumeCreated(CsiVolume(filesystem, mtlsMode)))
  }

  // The validations of handleExistingFilesystem after its wait
  function CheckExisting(env: Env, req: Request, filesystem: Filesystem, mtlsMode: string, parameters: Parameters): Pc
    requires req.CreateRequest?
  {
    if !CapacityCompatible(filesystem.maxCapacity, req.range) then Fail(AlreadyExists)
    else if filesystem.tags != TagList(parameters) then Fail(AlreadyExists)
    else Finalize(env, filesystem, mtlsMode, parameters)
  }

  ghost function CreateStep(env: Env, b: Backend, req: Request, parameters: Parameters, step: CreateStage, d: Delivery)
    : (Backend, Pc)
    requires Valid(b) && req.CreateRequest?
  {
    match step
    case ResolveSpace => (b, ResolveSpaceStep(b, parameters.space, d))
    case ReadSpacePolicy(spaceID) =>
      (b,
       match Received(d, GetSpacePolicy(b, spaceID))
       case Success(mtlsMode) => Provisioning(FindFilesystem(spaceID, mtlsMode))
       case Failure(error) => Fail(LinodeErrorCode(error)))
    case FindFilesystem(spaceID, mtlsMode) =>
      (b, FindStep(env, b, spaceID, mtlsMode, LabelOf(req.name), d))
    case CallCreate(spaceID, mtlsMode) =>
      var outcome := CreateFilesystem(b, spaceID, OptionsFor(env, req, parameters));
      (Effect(d, b, outcome),
       match Received(d, outcome.1)
       case Success(filesystem) => Provisioning(AwaitCreated(Handle(filesystem.spaceID, filesystem.id), mtlsMode))
       case Failure(error) => Fail(LinodeErrorCode(error)))
    case AwaitCreated(h, mtlsMode) =>
      var outcome := WaitForFilesystem(b, h.spaceID, h.filesystemID, FilesystemActive);
      (Effect(d, b, outcome),
       match Received(d, outcome.1)
       case Success(filesystem) => Finalize(env, filesystem, mtlsMode, parameters)
       case Failure(error) => Fail(WaitErrorCode(error)))
    case AwaitExisting(h, mtlsMode) =>
      var outcome := WaitForFilesystem(b, h.spaceID, h.filesystemID, FilesystemActive);
      (Effect(d, b, outcome),
       match Received(d, outcome.1)
       case Success(filesystem) => CheckExisting(env, req, filesystem, mtlsMode, parameters)
       case Failure(error) => Fail(WaitErrorCode(error)))
    case _ => SquashStep(env, b, parameters, step, d)
  }

  // setInitialSquashPolicy, which takes no lock
  ghost function SquashStep(env: Env, b: Backend, parameters: Parameters, step: CreateStage, d: Delivery): (Backend, Pc)
    requires Valid(b)
  {
    match step
    case ReadSquash(filesystem, mtlsMode) =>
      (b,
       match Received(d, GetPolicy(b, filesystem.spaceID, filesystem.id))
       case Failure(error) => Fail(LinodeErrorCode(error))
       case Success(policy) =>
         if parameters.squash.None? then Provisioning(step)
         else
           match SquashUpdate(env.mode, policy, parameters.squash.value)
           case Some(update) => Provisioning(WriteSquash(filesystem, mtlsMode, update))
           case None => Provisioning(AwaitSquash(filesystem, mtlsMode)))
    case WriteSquash(filesystem, mtlsMode, update) =>
      var outcome := UpdatePolicy(b, filesystem.spaceID, filesystem.id, update);
      (Effect(d, b, outcome),
       match Received(d, outcome.1)
       case Success(_) => Provisioning(AwaitSquash(filesystem, mtlsMode))
       case Failure(error) => Fail(LinodeErrorCode(error)))
    case AwaitSquash(filesystem, mtlsMode) =>
      var outcome := WaitForPolicy(b, filesystem.spaceID, filesystem.id, PolicyActive);
      (Effect(d, b, outcome),
       match Received(d, outcome.1)
       case Success(_) => Returned(VolumeCreated(CsiVolume(filesystem, mtlsMode)))
       case Failure(error) => Fail(WaitErrorCode(error)))
    case _ => (b, Provisioning(step))
  }

  // One step of one RPC
  ghost function StepRpc(env: Env, w: World, req: Request, pc: Pc, d: Delivery): (World, Pc)
    requires Valid(w.b)
  {
    match pc
    case Begin => BeginStep(w, req, d)
    case Locked(at) =>
      if at.Unlock? then
        (if LocksVolume(req) then w.(locks := w.locks - {req.volumeID}) else w, Returned(at.response))
      else
        var (b, next) := LockedStep(w.b, req, at, d);
        (w.(b := b), Locked(next))
    case Loose(stage) =>
      var (b, next) := LooseStep(env, w.b, stage, d);
      (w.(b := b), next)
    case Provisioning(step) =>
      if req.CreateRequest? && req.parameters.Some? then
        var (b, next) := CreateStep(env, w.b, req, req.parameters.value, step, d);
        (w.(b := b), next)
      else (w, pc)
    case Returned(_) => (w, pc)
  }

  lemma LockedStepKeepsValid(b: Backend, req: Request, at: LockedStage, d: Delivery)
    requires Valid(b)
    ensures Valid(LockedStep(b, req, at, d).0)
  {
    match at
    case WritePolicy(h, update) => UpdatePolicyKeepsValid(b, h.spaceID, h.filesystemID, update);
    case AwaitPolicy(h) => WaitForPolicyKeepsValid(b, h.spaceID, h.filesystemID, PolicyActive);
    case WriteQuota(h, capacity) => UpdateFilesystemKeepsValid(b, h.spaceID, h.filesystemID, Some(capacity));
    case _ =>
  }

  lemma CreateStepKeepsValid(env: Env, b: Backend, req: Request, parameters: Parameters, step: CreateStage, d: Delivery)
    requires Valid(b) && req.CreateRequest?
    ensures Valid(CreateStep(env, b, req, parameters, step, d).0)
  {
    match step
    case CallCreate(spaceID, _) => CreateKeepsValid(b, spaceID, OptionsFor(env, req, parameters));
    case AwaitCreated(h, _) => WaitForFilesystemKeepsValid(b, h.spaceID, h.filesystemID, FilesystemActive);
    case AwaitExisting(h, _) => WaitForFilesystemKeepsValid(b, h.spaceID, h.filesystemID, FilesystemActive);
    case WriteSquash(f, _, update) => UpdatePolicyKeepsValid(b, f.spaceID, f.id, update);
    case AwaitSquash(f, _) => WaitForPolicyKeepsValid(b, f.spaceID, f.id, PolicyActive);
    case _ =>
  }

  lemma StepKeepsValid(env: Env, w: World, req: Request, pc: Pc, d: Delivery)
    requires Valid(w.b)
    ensures Valid(StepRpc(env, w, req, pc, d).0.b)
  {
    match pc
    case Locked(at) => LockedStepKeepsValid(w.b, req, at, d);
    case Loose(CallDelete(h)) => DeleteKeepsValid(w.b, h.spaceID, h.filesystemID);
    case Provisioning(step) =>
      if req.CreateRequest? && req.parameters.Some? {
        CreateStepKeepsValid(env, w.b, req, req.parameters.value, step, d);
      }
    case _ =>
  }

  // The system: one world and any number of RPCs in flight

  datatype Rpc = Rpc(req: Request, pc: Pc)

  datatype System = System(w: World, rpcs: map<nat, Rpc>)

  datatype Event = Start(id: nat, req: Request) | Step(id: nat, d: Delivery)

  ghost function Apply(env: Env, s: System, e: Event): (s': System)
    requires Valid(s.w.b)
    ensures Valid(s'.w.b)
  {
    match e
    case Start(id, req) =>
      if id in s.rpcs then s else s.(rpcs := s.rpcs[id := Rpc(req, Begin)])
    case Step(id, d) =>
      if id !in s.rpcs then s
      else
        var rpc := s.rpcs[id];
        StepKeepsValid(env, s.w, rpc.req, rpc.pc, d);
        var (w, pc) := StepRpc(env, s.w, rpc.req, rpc.pc, d);
        System(w, s.rpcs[id := Rpc(rpc.req, pc)])
  }

  ghost function Run(env: Env, s: System, events: seq<Event>): (s': System)
    requires Valid(s.w.b)
    ensures Valid(s'.w.b)
    decreases events
  {
    if events == [] then s else Run(env, Apply(env, s, events[0]), events[1..])
  }

  ghost predicate Initial(s: System) {
    Valid(s.w.b) && s.w.locks == {} && s.rpcs == map[]
  }

  // The requests of a run come from this set.
  ghost predicate Draws(events: seq<Event>, reqs: set<Request>) {
    forall e | e in events && e.Start? :: e.req in reqs
  }

  lemma {:induction false} RunInTwo(env: Env, s: System, first: seq<Event>, second: seq<Event>)
    requires Valid(s.w.b)
    ensures Run(env, s, first + second) == Run(env, Run(env, s, first), second)
    decreases first
  {
    hide IndexOk, QuotasOk;
    if first == [] {
      assert first + second == second;
    } else {
      assert (first + second)[1..] == first[1..] + second;
      RunInTwo(env, Apply(env, s, first[0]), first[1..], second);
    }
  }

  // An uninterrupted RPC, each of whose steps meets the next delivery

  // No RPC takes more steps than this.
  const MAX_STEPS: nat := 10

  // Run one RPC without interruption, for a number of steps or to its end.
  ghost function Alone(env: Env, w: World, req: Request, pc: Pc, net: seq<Delivery>, steps: nat): (World, Pc)
    requires Valid(w.b)
    decreases steps
  {
    if pc.Returned? || steps == 0 then (w, pc)
    else
      StepKeepsValid(env, w, req, pc, Next(net));
      var (w', pc') := StepRpc(env, w, req, pc, Next(net));
      Alone(env, w', req, pc', Later(net), steps - 1)
  }

  lemma AloneStep(env: Env, w: World, req: Request, pc: Pc, net: seq<Delivery>, steps: nat)
    requires Valid(w.b) && steps > 0 && !pc.Returned?
    ensures var (w', pc') := StepRpc(env, w, req, pc, Next(net));
            Valid(w'.b) && Alone(env, w, req, pc, net, steps) == Alone(env, w', req, pc', Later(net), steps - 1)
  {
    hide IndexOk, QuotasOk, StepRpc;
    StepKeepsValid(env, w, req, pc, Next(net));
  }

  lemma AloneDone(env: Env, w: World, req: Request, pc: Pc, net: seq<Delivery>, steps: nat)
    requires Valid(w.b) && pc.Returned?
    ensures Alone(env, w, req, pc, net, steps) == (w, pc)
  {
    hide IndexOk, QuotasOk, StepRpc;
  }

  lemma {:induction false} AloneKeepsValid(env: Env, w: World, req: Request, pc: Pc, net: seq<Delivery>, steps: nat)
    requires Valid(w.b)
    ensures Valid(Alone(env, w, req, pc, net, steps).0.b)
    decreases steps
  {
    hide IndexOk, QuotasOk;
    if !pc.Returned? && steps > 0 {
      StepKeepsValid(env, w, req, pc, Next(net));
      var (w', pc') := StepRpc(env, w, req, pc, Next(net));
      AloneKeepsValid(env, w', req, pc', Later(net), steps - 1);
    }
  }
}
