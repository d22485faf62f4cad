// The controller RPCs as the driver writes them. Each method is proved to be
// the uninterrupted run of its step machine, over any faults of the network.
module Controller {
  import opened Wrappers
  import opened Text
  import opened Handles
  import opened Labels
  import opened NfsModel
  import opened MountTargets
  import opened LinodeContract
  import opened Transport
  import opened AccessPolicies
  import opened ControllerSteps
  import opened Status
  import opened Locking
  import opened LinodeAPI
  import opened RegionCache

  // Two points of one uninterrupted run, k steps apart
  ghost predicate Leads(env: Env, req: Request, w: World, pc: Pc, net: seq<Delivery>,
                        w': World, pc': Pc, net': seq<Delivery>, k: nat, steps: nat)
    requires Valid(w.b) && Valid(w'.b)
  {
    k <= steps && Alone(env, w, req, pc, net, steps) == Alone(env, w', req, pc', net', steps - k)
  }

  lemma OneStep(env: Env, req: Request, w: World, pc: Pc, net: seq<Delivery>, steps: nat)
    requires Valid(w.b) && steps > 0 && !pc.Returned?
    ensures var (w', pc') := StepRpc(env, w, req, pc, Next(net));
            Valid(w'.b) && Leads(env, req, w, pc, net, w', pc', Later(net), 1, steps)
  {
    hide IndexOk, QuotasOk, StepRpc, Alone;
    AloneStep(env, w, req, pc, net, steps);
  }

  function ResizeResponse(updated: Result<Filesystem, ClientError>, capacity: int): Response {
    match updated
    case Success(_) => VolumeExpanded(capacity)
    case Failure(error) => Error(LinodeErrorCode(error))
  }

  // Sending the resize leads to the deferred release.
  lemma WriteQuotaLeads(env: Env, req: Request, w: World, h: Handle, capacity: int, net: seq<Delivery>, steps: nat)
    requires Valid(w.b) && steps > 0
    ensures var outcome := UpdateFilesystem(w.b, h.spaceID, h.filesystemID, Some(capacity));
            var b' := Effect(Next(net), w.b, outcome);
            var response := ResizeResponse(Received(Next(net), outcome.1), capacity);
            && Valid(b')
            && Leads(env, req, w, Locked(WriteQuota(h, capacity)), net,
                     w.(b := b'), Locked(Unlock(response)), Later(net), 1, steps)
  {
    hide IndexOk, QuotasOk;
    OneStep(env, req, w, Locked(WriteQuota(h, capacity)), net, steps);
  }

  // filesystemPolicyLinodeIDs
  method PolicyLinodeIDs(policy: Policy) returns (ids: seq<int>)
    ensures ids == NonZero(policy.acl)
  {
    ids := [];
    for i := 0 to |policy.acl|
      invariant ids == NonZero(policy.acl[..i])
    {
      assert policy.acl[..i + 1][..i] == policy.acl[..i];
      if policy.acl[i] != 0 {
        ids := ids + [policy.acl[i]];
      }
    }
    assert policy.acl[..|policy.acl|] == policy.acl;
  }

  // slices.DeleteFunc as ControllerUnpublishVolume uses it: moves all other IDs
  // to the front of the slice that it ranges over.
  method DeleteID(ids: array<int>, node: int) returns (count: nat)
    modifies ids
    ensures count <= ids.Length && ids[..count] == Without(old(ids[..]), node)
  {
    count := 0;
    ghost var listed := ids[..];
    for i := 0 to ids.Length
      invariant count <= i
      invariant ids[i..] == listed[i..]
      invariant ids[..count] == Without(listed[..i], node)
    {
      assert listed[..i + 1][..i] == listed[..i];
      var id := ids[i];
      assert id == ids[i..][0] == listed[i];
      if id != node {
        ids[count] := id;
        count := count + 1;
      }
      assert ids[i + 1..] == listed[i..][1..];
    }
    assert listed[..ids.Length] == listed;
  }

  // publishedNodeIDs
  method PrintNodeIDs(linodeIDs: seq<int>) returns (nodeIDs: seq<string>)
    ensures nodeIDs == Printed(linodeIDs)
  {
    nodeIDs := [];
    for i := 0 to |linodeIDs|
      invariant |nodeIDs| == i && forall k | 0 <= k < i :: nodeIDs[k] == Itoa(linodeIDs[k])
    {
      nodeIDs := nodeIDs + [Itoa(linodeIDs[i])];
    }
  }

  // The search for the root quota in ControllerExpandVolume
  method FindRootQuota(quotas: seq<Quota>) returns (root: Option<Quota>)
    ensures root == FirstRoot(quotas)
  {
    for i := 0 to |quotas|
      invariant FirstRoot(quotas) == FirstRoot(quotas[i..])
    {
      if quotas[i].isRoot {
        return Some(quotas[i]);
      }
      assert quotas[i..][1..] == quotas[i + 1..];
    }
    return None;
  }

  // validateFilesystemMountTarget
  method CheckMountTarget(parse: AddressParser, filesystem: Filesystem) returns (ok: bool)
    ensures ok <==> HasMountTarget(parse, filesystem)
  {
    if FQDN(filesystem) != "" {
      return true;
    }
    var targets := filesystem.mountTargetIPs;
    for i := 0 to |targets|
      invariant forall k | 0 <= k < i :: !Usable(parse, targets[k])
    {
      if MountTargetIP(parse, targets[i]) != "" {
        var target := targets[i];
        assert target in targets && Usable(parse, target);
        return true;
      }
    }
    return false;
  }

  class ControllerServer {
    const mode: AccessPolicyMode
    const parse: AddressParser
    const client: LinodeClient
    const volumeLocks: VolumeLocks
    const metadata: MetadataService

    constructor (mode: AccessPolicyMode, parse: AddressParser, client: LinodeClient, volumeLocks: VolumeLocks,
                 metadata: MetadataService)
      ensures this.mode == mode && this.parse == parse && this.client == client
      ensures this.volumeLocks == volumeLocks && this.metadata == metadata
    {
      this.mode, this.parse, this.client := mode, parse, client;
      this.volumeLocks, this.metadata := volumeLocks, metadata;
    }

    function EnvIn(region: string): Env {
      Env(region, mode, parse)
    }

    function Current(): World
      reads client, volumeLocks
    {
      World(client.State(), volumeLocks.locks)
    }

    // This call is the whole run of the request from w, under faults net.
    ghost predicate Completes(region: string, req: Request, w: World, net: seq<Delivery>, steps: nat, r: Response)
      requires Valid(w.b)
      reads client, volumeLocks
    {
      Valid(Current().b) && Alone(EnvIn(region), w, req, Begin, net, steps) == (Current(), Returned(r))
    }

    // From pc the run comes to the deferred release, with response r.
    ghost predicate ReachesUnlock(env: Env, req: Request, w: World, at: LockedStage, net: seq<Delivery>, steps: nat,
                                  r: Response, left: nat)
      requires Valid(w.b)
      reads client, volumeLocks
    {
      && Valid(Current().b) && left >= 1
      && Alone(env, w, req, Locked(at), net, steps) ==
         Alone(env, Current(), req, Locked(Unlock(r)), client.net, left)
    }

    // Each API call meets the next scripted delivery; taking the lock meets
    // none, which the machine counts as a delivered step. The region plays no
    // part in the RPCs on existing volumes.
    method ControllerPublishVolume(volumeID: string, nodeID: string, supported: bool,
                                   ghost region: string, ghost steps: nat)
      returns (r: Response)
      requires Valid(client.State()) && steps >= MAX_STEPS
      modifies client, volumeLocks
      ensures Completes(region, PublishRequest(volumeID, nodeID, supported),
                        old(Current()), [Delivered] + old(client.net), steps, r)
    {
      ghost var env, req := EnvIn(region), PublishRequest(volumeID, nodeID, supported);
      ghost var net := [Delivered] + client.net;
      assert Later(net) == client.net && Next(net) == Delivered;
      OneStep(env, req, Current(), Begin, net, steps);
      if volumeID == "" || nodeID == "" || !supported {
        return Error(InvalidArgument);
      }
      var acquired := volumeLocks.TryAcquire(volumeID);
      if !acquired {
        return Error(Aborted);
      }
      ghost var left := steps - 1;
      match (ParseVolumeHandle(volumeID), Atoi(nodeID)) {
        case (Some(h), Some(linodeID)) =>
          r, left := PublishLocked(h, linodeID, env, req, left);
        case _ =>
          r := Error(InvalidArgument);
      }
      OneStep(env, req, Current(), Locked(Unlock(r)), client.net, left);
      volumeLocks.Release(volumeID);
    }

    // The calls that ControllerPublishVolume makes while it holds the lock
    method PublishLocked(h: Handle, linodeID: int, ghost env: Env, ghost req: Request, ghost steps: nat)
      returns (r: Response, ghost left: nat)
      requires Valid(client.State()) && steps >= 4 && req.PublishRequest?
      modifies client
      ensures ReachesUnlock(env, req, old(Current()), ReadPolicy(h, linodeID), old(client.net), steps, r, left)
    {
      OneStep(env, req, Current(), Locked(ReadPolicy(h, linodeID)), client.net, steps);
      left := steps - 1;
      var reply := client.GetPolicy(h.spaceID, h.filesystemID);
      if reply.Failure? {
        return Error(LinodeErrorCode(reply.error)), left;
      }
      var policy := reply.value;
      var linodeIDs := PolicyLinodeIDs(policy);
      if linodeID in linodeIDs {
        if policy.enabled {
          return VolumePublished, left;
        }
      } else {
        linodeIDs := linodeIDs + [linodeID];
      }
      r, left := WriteAndAwait(h, PolicyUpdateFor(policy, true, linodeIDs), VolumePublished, env, req, left);
    }

    // The last two calls of ControllerPublishVolume and ControllerUnpublishVolume
    method WriteAndAwait(h: Handle, update: PolicyUpdate, done: Response, ghost env: Env, ghost req: Request,
                         ghost steps: nat)
      returns (r: Response, ghost left: nat)
      requires Valid(client.State()) && steps >= 3 && done == Done(req)
      modifies client
      ensures ReachesUnlock(env, req, old(Current()), WritePolicy(h, update), old(client.net), steps, r, left)
    {
      hide IndexOk, QuotasOk;
      OneStep(env, req, Current(), Locked(WritePolicy(h, update)), client.net, steps);
      var written := client.UpdatePolicy(h.spaceID, h.filesystemID, update);
      if written.Failure? {
        return Error(LinodeErrorCode(written.error)), steps - 1;
      }
      r, left := AwaitActive(h, done, env, req, steps - 1);
    }

    // waitForFilesystemAccessPolicyActive
    method AwaitActive(h: Handle, done: Response, ghost env: Env, ghost req: Request, ghost steps: nat)
      returns (r: Response, ghost left: nat)
      requires Valid(client.State()) && steps >= 2 && done == Done(req)
      modifies client
      ensures ReachesUnlock(env, req, old(Current()), AwaitPolicy(h), old(client.net), steps, r, left)
    {
      hide IndexOk, QuotasOk;
      OneStep(env, req, Current(), Locked(AwaitPolicy(h)), client.net, steps);
      var waited := client.WaitForPolicy(h.spaceID, h.filesystemID, PolicyActive);
      if waited.Failure? {
        return Error(WaitErrorCode(waited.error)), steps - 1;
      }
      return done, steps - 1;
    }

    method ControllerUnpublishVolume(volumeID: string, nodeID: string, ghost region: string, ghost steps: nat)
      returns (r: Response)
      requires Valid(client.State()) && steps >= MAX_STEPS
      modifies client, volumeLocks
      ensures Completes(region, UnpublishRequest(volumeID, nodeID), old(Current()), [Delivered] + old(client.net),
              steps, r)
    {
      ghost var env, req := EnvIn(region), UnpublishRequest(volumeID, nodeID);
      ghost var net := [Delivered] + client.net;
      assert Later(net) == client.net && Next(net) == Delivered;
      OneStep(env, req, Current(), Begin, net, steps);
      if volumeID == "" {
        return Error(InvalidArgument);
      }
      if nodeID == "" {
        return VolumeUnpublished;
      }
      var acquired := volumeLocks.TryAcquire(volumeID);
      if !acquired {
        return Error(Aborted);
      }
      ghost var left := steps - 1;
      match (ParseVolumeHandle(volumeID), Atoi(nodeID)) {
        case (Some(h), Some(linodeID)) =>
          r, left := UnpublishLocked(h, linodeID, env, req, left);
        case _ =>
          r := Error(InvalidArgument);
      }
      OneStep(env, req, Current(), Locked(Unlock(r)), client.net, left);
      volumeLocks.Release(volumeID);
    }

    // The calls that ControllerUnpublishVolume makes while it holds the lock
    method UnpublishLocked(h: Handle, linodeID: int, ghost env: Env, ghost req: Request, ghost steps: nat)
      returns (r: Response, ghost left: nat)
      requires Valid(client.State()) && steps >= 4 && req.UnpublishRequest?
      modifies client
      ensures ReachesUnlock(env, req, old(Current()), ReadPolicy(h, linodeID), old(client.net), steps, r, left)
    {
      OneStep(env, req, Current(), Locked(ReadPolicy(h, linodeID)), client.net, steps);
      left := steps - 1;
      var reply := client.GetPolicy(h.spaceID, h.filesystemID);
      if reply.Failure? {
        if reply.error == Api(NotFound) {
          return VolumeUnpublished, left;
        }
        return Error(LinodeErrorCode(reply.error)), left;
      }
      var policy := reply.value;
      var linodeIDs := PolicyLinodeIDs(policy);
      if linodeID !in linodeIDs {
        return VolumeUnpublished, left;
      }
      var ids := new int[|linodeIDs|](i requires 0 <= i < |linodeIDs| => linodeIDs[i]);
      assert ids[..] == linodeIDs;
      var count := DeleteID(ids, linodeID);
      var update := PolicyUpdateFor(policy, policy.enabled, ids[..count]);
      r, left := WriteAndAwait(h, update, VolumeUnpublished, env, req, left);
    }

    method ControllerExpandVolume(volumeID: string, range: Option<CapacityRange>, ghost region: string,
                                  ghost steps: nat)
      returns (r: Response)
      requires Valid(client.State()) && steps >= MAX_STEPS
      modifies client, volumeLocks
      ensures Completes(region, ExpandRequest(volumeID, range), old(Current()), [Delivered] + old(client.net), steps, r)
    {
      hide IndexOk, QuotasOk;
      ghost var env, req := EnvIn(region), ExpandRequest(volumeID, range);
      ghost var net := [Delivered] + client.net;
      assert Later(net) == client.net && Next(net) == Delivered;
      OneStep(env, req, Current(), Begin, net, steps);
      if volumeID == "" {
        return Error(InvalidArgument);
      }
      var h := ParseVolumeHandle(volumeID);
      if h.None? || range.None? {
        return Error(InvalidArgument);
      }
      var required, limit := Required(range), Limit(range);
      if required < 0 || limit < 0 || (required > 0 && limit > 0 && required > limit) {
        return Error(InvalidArgument);
      }
      if RequestedCapacity(range) <= 0 {
        return Error(InvalidArgument);
      }
      var acquired := volumeLocks.TryAcquire(volumeID);
      if !acquired {
        return Error(Aborted);
      }
      ghost var left;
      r, left := ExpandLocked(h.value, range, env, req, steps - 1);
      OneStep(env, req, Current(), Locked(Unlock(r)), client.net, left);
      volumeLocks.Release(volumeID);
    }

    // The calls that ControllerExpandVolume makes while it holds the lock
    method ExpandLocked(h: Handle, range: Option<CapacityRange>, ghost env: Env, ghost req: Request, ghost steps: nat)
      returns (r: Response, ghost left: nat)
      requires Valid(client.State()) && steps >= 3 && req.ExpandRequest? && req.range == range
      modifies client
      ensures ReachesUnlock(env, req, old(Current()), ReadQuota(h), old(client.net), steps, r, left)
    {
      hide IndexOk, QuotasOk;
      OneStep(env, req, Current(), Locked(ReadQuota(h)), client.net, steps);
      left := steps - 1;
      var quotas := client.ListQuotas(h.spaceID, h.filesystemID);
      if quotas.Failure? {
        return Error(LinodeErrorCode(quotas.error)), left;
      }
      var rootQuota := FindRootQuota(quotas.value);
      if rootQuota.None? || rootQuota.value.maxCapacity.None? {
        return Error(FailedPrecondition), left;
      }
      var required, limit, requested := Required(range), Limit(range), RequestedCapacity(range);
      var current := rootQuota.value.maxCapacity.value;
      if (current >= required && (limit == 0 || current <= limit)) || requested == current {
        return VolumeExpanded(current), left;
      }
      if requested < current {
        return Error(InvalidArgument), left;
      }
      r, left := ResizeLocked(h, requested, env, req, left);
    }

    method ResizeLocked(h: Handle, requested: int, ghost env: Env, ghost req: Request, ghost steps: nat)
      returns (r: Response, ghost left: nat)
      requires Valid(client.State()) && steps >= 2
      modifies client
      ensures ReachesUnlock(env, req, old(Current()), WriteQuota(h, requested), old(client.net), steps, r, left)
    {
      ghost var w, net := Current(), client.net;
      var updated := client.UpdateFilesystem(h.spaceID, h.filesystemID, Some(requested));
      WriteQuotaLeads(env, req, w, h, requested, net, steps);
      return ResizeResponse(updated, requested), steps - 1;
    }

    method DeleteVolume(volumeID: string, ghost region: string, ghost steps: nat) returns (r: Response)
      requires Valid(client.State()) && steps >= MAX_STEPS
      modifies client
      ensures Completes(region, DeleteRequest(volumeID), old(Current()), [Delivered] + old(client.net), steps, r)
    {
      hide IndexOk, QuotasOk;
      ghost var env, req := EnvIn(region), DeleteRequest(volumeID);
      ghost var net := [Delivered] + client.net;
      assert Later(net) == client.net && Next(net) == Delivered;
      OneStep(env, req, Current(), Begin, net, steps);
      if volumeID == "" {
        return Error(InvalidArgument);
      }
      var h := ParseVolumeHandle(volumeID);
      if h.None? {
        return VolumeDeleted;
      }
      OneStep(env, req, Current(), Loose(CallDelete(h.value)), client.net, steps - 1);
      var deleted := client.DeleteFilesystem(h.value.spaceID, h.value.filesystemID);
      if deleted.Failure? {
        if deleted.error == Api(NotFound) {
          return VolumeDeleted;
        }
        return Error(LinodeErrorCode(deleted.error));
      }
      return VolumeDeleted;
    }

    method ControllerGetVolume(volumeID: string, ghost region: string, ghost steps: nat) returns (r: Response)
      requires Valid(client.State()) && steps >= MAX_STEPS
      modifies client
      ensures Completes(region, GetRequest(volumeID), old(Current()), [Delivered] + old(client.net), steps, r)
    {
      hide IndexOk, QuotasOk;
      ghost var env, req := EnvIn(region), GetRequest(volumeID);
      ghost var net := [Delivered] + client.net;
      assert Later(net) == client.net && Next(net) == Delivered;
      OneStep(env, req, Current(), Begin, net, steps);
      if volumeID == "" {
        return Error(InvalidArgument);
      }
      var h := ParseVolumeHandle(volumeID);
      if h.None? {
        return Error(InvalidArgument);
      }
      OneStep(env, req, Current(), Loose(ReadFilesystem(h.value)), client.net, steps - 1);
      var filesystem := client.GetFilesystem(h.value.spaceID, h.value.filesystemID);
      if filesystem.Failure? {
        return Error(LinodeErrorCode(filesystem.error));
      }
      var mountable := CheckMountTarget(parse, filesystem.value);
      if !mountable {
        return Error(FailedPrecondition);
      }
      OneStep(env, req, Current(), Loose(ReadStatus(h.value, filesystem.value)), client.net, steps - 2);
      var policy := client.GetPolicy(h.value.spaceID, h.value.filesystemID);
      if policy.Failure? {
        return Error(LinodeErrorCode(policy.error));
      }
      var nodeIDs: seq<string> := [];
      if policy.value.enabled {
        var linodeIDs := PolicyLinodeIDs(policy.value);
        nodeIDs := PrintNodeIDs(linodeIDs);
      }
      return VolumeInfo(CsiVolume(filesystem.value, ""), nodeIDs);
    }

    // CreateVolume

    // From one stage the run comes to pc.
    ghost predicate ComesTo(env: Env, req: Request, w: World, stage: CreateStage, net: seq<Delivery>, steps: nat,
                            pc: Pc, left: nat)
      requires Valid(w.b)
      reads client, volumeLocks
    {
      && Valid(Current().b)
      && Alone(env, w, req, Provisioning(stage), net, steps) == Alone(env, Current(), req, pc, client.net, left)
    }

    // The request passes its checks; it may be answered without asking for the region.
    predicate Precheck(name: string, supported: bool, source: ContentSource, parameters: Option<Parameters>) {
      name != "" && supported && source.NoSource? && parameters.Some?
    }

    // Region discovery is the first call; its failure is the fate of the first step.
    method CreateVolume(name: string, supported: bool, source: ContentSource, parameters: Option<Parameters>,
                        range: Option<CapacityRange>, ghost steps: nat)
      returns (r: Response)
      requires Valid(client.State()) && steps >= MAX_STEPS
      modifies client, metadata
      ensures var (cache, answers, region) := AskRegion(old(metadata.region), old(metadata.answers));
              && Completes(if region.Success? then region.value else "",
                           CreateRequest(name, supported, source, parameters, range), old(Current()),
                           [if region.Success? then Delivered else RequestLost(BrokenTransport)] + old(client.net),
                             steps, r)
              && (metadata.region, metadata.answers) ==
                 if Precheck(name, supported, source, parameters) then (cache, answers)
                 else (old(metadata.region), old(metadata.answers))
    {
      hide IndexOk, QuotasOk;
      ghost var asked := AskRegion(metadata.region, metadata.answers).2;
      ghost var env := EnvIn(if asked.Success? then asked.value else "");
      ghost var req := CreateRequest(name, supported, source, parameters, range);
      ghost var net := [if asked.Success? then Delivered else RequestLost(BrokenTransport)] + client.net;
      assert Later(net) == client.net && Next(net) == net[0];
      OneStep(env, req, Current(), Begin, net, steps);
      if name == "" || !supported {
        return Error(InvalidArgument);
      }
      if source.OtherSource? || source == FromSnapshot("") {
        return Error(InvalidArgument);
      }
      if source.FromSnapshot? {
        var snapshot := ParseSnapshotHandle(source.snapshotID);
        return Error(if snapshot.None? then NotFoundCode else Unimplemented);
      }
      if parameters.None? {
        return Error(InvalidArgument);
      }
      var region := metadata.Region();
      if region.Failure? {
        return Error(FailedPrecondition);
      }
      r := ProvisionIn(region.value, name, range, parameters.value, env, req, steps - 1);
    }

    // CreateVolume once the region is known
    method ProvisionIn(region: string, name: string, range: Option<CapacityRange>, params: Parameters,
                       ghost env: Env, ghost req: Request, ghost steps: nat)
      returns (r: Response)
      requires Valid(client.State()) && steps >= 9 && env == EnvIn(region)
      requires req.CreateRequest? && req.name == name && req.range == range && req.parameters == Some(params)
      modifies client
      ensures ComesTo(env, req, old(Current()), ResolveSpace, old(client.net), steps, Returned(r), 0)
    {
      var space := FindSpace(params.space, env, req, steps);
      if space.Failure? {
        return Error(space.error);
      }
      OneStep(env, req, Current(), Provisioning(ReadSpacePolicy(space.value)), client.net, steps - 1);
      var mtlsMode := client.GetSpacePolicy(space.value);
      if mtlsMode.Failure? {
        return Error(LinodeErrorCode(mtlsMode.error));
      }
      r := FindOrCreate(region, space.value, mtlsMode.value, name, range, params, env, req, steps - 2);
    }

    // resolveSpace
    method FindSpace(space: SpaceReference, ghost env: Env, ghost req: Request, ghost steps: nat)
      returns (r: Result<int, Code>)
      requires Valid(client.State()) && steps >= 1
      requires req.CreateRequest? && req.parameters.Some? && req.parameters.value.space == space
      modifies client
      ensures ComesTo(env, req, old(Current()), ResolveSpace, old(client.net), steps,
                      match r case Success(id) => Provisioning(ReadSpacePolicy(id)) case Failure(code) => Fail(code),
                      steps - 1)
    {
      OneStep(env, req, Current(), Provisioning(ResolveSpace), client.net, steps);
      if space.SpaceByID? {
        var found := client.GetSpace(space.spaceID);
        if found.Failure? {
          return Failure(LinodeErrorCode(found.error));
        }
        return Success(found.value);
      }
      var spaces := client.ListSpaces(space.title);
      if spaces.Failure? {
        return Failure(LinodeErrorCode(spaces.error));
      }
      if |spaces.value| == 0 {
        return Failure(NotFoundCode);
      }
      if |spaces.value| > 1 {
        return Failure(FailedPrecondition);
      }
      return Success(spaces.value[0]);
    }

    // The lookup by label and what follows from it
    method FindOrCreate(region: string, spaceID: int, mtlsMode: string, name: string, range: Option<CapacityRange>,
                        params: Parameters, ghost env: Env, ghost req: Request, ghost steps: nat)
      returns (r: Response)
      requires Valid(client.State()) && steps >= 7 && env == EnvIn(region)
      requires req.CreateRequest? && req.name == name && req.range == range && req.parameters == Some(params)
      modifies client
      ensures ComesTo(env, req, old(Current()), FindFilesystem(spaceID, mtlsMode), old(client.net), steps,
              Returned(r), 0)
    {
      var nfsLabel := LabelOf(name);
      var existing := FindExisting(region, spaceID, nfsLabel, mtlsMode, env, req, steps);
      if existing.Failure? {
        return Error(existing.error);
      }
      if existing.value.Some? {
        r := HandleExisting(existing.value.value, range, mtlsMode, params, env, req, steps - 1);
        return;
      }
      r := CreateNew(region, spaceID, mtlsMode, nfsLabel, range, params, env, req, steps - 1);
    }

    method CreateNew(region: string, spaceID: int, mtlsMode: string, nfsLabel: string, range: Option<CapacityRange>,
                     params: Parameters, ghost env: Env, ghost req: Request, ghost steps: nat)
      returns (r: Response)
      requires Valid(client.State()) && steps >= 6 && env == EnvIn(region)
      requires req.CreateRequest? && LabelOf(req.name) == nfsLabel && req.range == range
               && req.parameters == Some(params)
      modifies client
      ensures ComesTo(env, req, old(Current()), CallCreate(spaceID, mtlsMode), old(client.net), steps, Returned(r), 0)
    {
      hide IndexOk, QuotasOk;
      OneStep(env, req, Current(), Provisioning(CallCreate(spaceID, mtlsMode)), client.net, steps);
      var options := CreateOptions(nfsLabel, region, RequestedCapacity(range), Some([NFSv4]), params.tags);
      var created := client.CreateFilesystem(spaceID, options);
      if created.Failure? {
        return Error(LinodeErrorCode(created.error));
      }
      r := AwaitNew(Handle(created.value.spaceID, created.value.id), mtlsMode, params, env, req, steps - 1);
    }

    // findExistingFilesystem
    method FindExisting(region: string, spaceID: int, nfsLabel: string, mtlsMode: string,
                        ghost env: Env, ghost req: Request, ghost steps: nat)
      returns (r: Result<Option<Handle>, Code>)
      requires Valid(client.State()) && steps >= 1 && env == EnvIn(region)
      requires req.CreateRequest? && req.parameters.Some? && LabelOf(req.name) == nfsLabel
      modifies client
      ensures ComesTo(env, req, old(Current()), FindFilesystem(spaceID, mtlsMode), old(client.net), steps,
                      match r
                      case Success(Some(h)) => Provisioning(AwaitExisting(h, mtlsMode))
                      case Success(None) => Provisioning(CallCreate(spaceID, mtlsMode))
                      case Failure(code) => Fail(code),
                      steps - 1)
    {
      OneStep(env, req, Current(), Provisioning(FindFilesystem(spaceID, mtlsMode)), client.net, steps);
      var filesystems := client.ListFilesystems(spaceID, nfsLabel, region);
      if filesystems.Failure? {
        return Failure(LinodeErrorCode(filesystems.error));
      }
      if |filesystems.value| == 0 {
        return Success(None);
      }
      if |filesystems.value| > 1 {
        return Failure(FailedPrecondition);
      }
      var found := filesystems.value[0];
      if found.nfsLabel != nfsLabel || found.region != region || found.spaceID != spaceID {
        return Failure(AlreadyExists);
      }
      return Success(Some(Handle(found.spaceID, found.id)));
    }

    method AwaitNew(h: Handle, mtlsMode: string, params: Parameters, ghost env: Env, ghost req: Request,
                    ghost steps: nat)
      returns (r: Response)
      requires Valid(client.State()) && steps >= 4 && env.parse == parse && env.mode == mode
      requires req.CreateRequest? && req.parameters == Some(params)
      modifies client
      ensures ComesTo(env, req, old(Current()), AwaitCreated(h, mtlsMode), old(client.net), steps, Returned(r), 0)
    {
      hide IndexOk, QuotasOk;
      OneStep(env, req, Current(), Provisioning(AwaitCreated(h, mtlsMode)), client.net, steps);
      var active := client.WaitForFilesystem(h.spaceID, h.filesystemID, FilesystemActive);
      if active.Failure? {
        return Error(WaitErrorCode(active.error));
      }
      r := FinalizeVolume(active.value, mtlsMode, params, env, req, steps - 1);
    }

    // handleExistingFilesystem
    method HandleExisting(h: Handle, range: Option<CapacityRange>, mtlsMode: string, params: Parameters,
                          ghost env: Env, ghost req: Request, ghost steps: nat)
      returns (r: Response)
      requires Valid(client.State()) && steps >= 4 && env.parse == parse && env.mode == mode
      requires req.CreateRequest? && req.range == range && req.parameters == Some(params)
      modifies client
      ensures ComesTo(env, req, old(Current()), AwaitExisting(h, mtlsMode), old(client.net), steps, Returned(r), 0)
    {
      hide IndexOk, QuotasOk;
      OneStep(env, req, Current(), Provisioning(AwaitExisting(h, mtlsMode)), client.net, steps);
      var active := client.WaitForFilesystem(h.spaceID, h.filesystemID, FilesystemActive);
      if active.Failure? {
        return Error(WaitErrorCode(active.error));
      }
      var existing := active.value;
      if existing.maxCapacity != 0 {
        var capacity := existing.maxCapacity;
        if Required(range) > capacity || (Limit(range) != 0 && capacity > Limit(range)) {
          return Error(AlreadyExists);
        }
      }
      if existing.tags != TagList(params) {
        return Error(AlreadyExists);
      }
      r := FinalizeVolume(existing, mtlsMode, params, env, req, steps - 1);
    }

    // finalizeFilesystemVolume
    method FinalizeVolume(filesystem: Filesystem, mtlsMode: string, params: Parameters,
                          ghost env: Env, ghost req: Request, ghost steps: nat)
      returns (r: Response)
      requires Valid(client.State()) && steps >= 3 && env.parse == parse && env.mode == mode
      requires req.CreateRequest? && req.parameters == Some(params)
      modifies client
      ensures Valid(client.State())
      ensures Alone(env, old(Current()), req, Finalize(env, filesystem, mtlsMode, params), old(client.net), steps) ==
              (Current(), Returned(r))
    {
      var mountable := CheckMountTarget(parse, filesystem);
      if !mountable {
        return Error(FailedPrecondition);
      }
      if params.squash.Some? {
        var failed := SetInitialSquashPolicy(filesystem, params.squash.value, mtlsMode, env, req, steps);
        if failed.Some? {
          return Error(failed.value);
        }
      }
      return VolumeCreated(CsiVolume(filesystem, mtlsMode));
    }

    // Reads the policy, replaces it if it differs from its goal, and waits for
    // it in any case.
    method SetInitialSquashPolicy(filesystem: Filesystem, squash: SquashPolicy, ghost mtlsMode: string,
                                  ghost env: Env, ghost req: Request, ghost steps: nat)
      returns (failed: Option<Code>)
      requires Valid(client.State()) && steps >= 3 && env.mode == mode
      requires req.CreateRequest? && req.parameters.Some? && req.parameters.value.squash == Some(squash)
      modifies client
      ensures ComesTo(env, req, old(Current()), ReadSquash(filesystem, mtlsMode), old(client.net), steps,
                      Outcome(filesystem, mtlsMode, failed), 0)
    {
      hide IndexOk, QuotasOk;
      OneStep(env, req, Current(), Provisioning(ReadSquash(filesystem, mtlsMode)), client.net, steps);
      var read := client.GetPolicy(filesystem.spaceID, filesystem.id);
      if read.Failure? {
        return Some(LinodeErrorCode(read.error));
      }
      var policy := read.value;
      var enabled := policy.enabled;
      var linodeIDs := PolicyLinodeIDs(policy);
      if mode == SpaceMode {
        enabled, linodeIDs := true, [];
      }
      if policy.squash != squash || enabled != policy.enabled || linodeIDs != policy.acl {
        var update := PolicyUpdateFor(policy, enabled, linodeIDs).(squash := Some(squash));
        failed := WriteSquashPolicy(filesystem, update, mtlsMode, env, req, steps - 1);
      } else {
        failed := AwaitSquashPolicy(filesystem, mtlsMode, env, req, steps - 1);
      }
    }

    ghost function Outcome(filesystem: Filesystem, mtlsMode: string, failed: Option<Code>): Pc {
      if failed.Some? then Fail(failed.value) else Returned(VolumeCreated(CsiVolume(filesystem, mtlsMode)))
    }

    method WriteSquashPolicy(filesystem: Filesystem, update: PolicyUpdate, ghost mtlsMode: string,
                             ghost env: Env, ghost req: Request, ghost steps: nat)
      returns (failed: Option<Code>)
      requires Valid(client.State()) && steps >= 2 && req.CreateRequest? && req.parameters.Some?
      modifies client
      ensures ComesTo(env, req, old(Current()), WriteSquash(filesystem, mtlsMode, update), old(client.net), steps,
                      Outcome(filesystem, mtlsMode, failed), 0)
    {
      hide IndexOk, QuotasOk;
      OneStep(env, req, Current(), Provisioning(WriteSquash(filesystem, mtlsMode, update)), client.net, steps);
      var written := client.UpdatePolicy(filesystem.spaceID, filesystem.id, update);
      if written.Failure? {
        return Some(LinodeErrorCode(written.error));
      }
      failed := AwaitSquashPolicy(filesystem, mtlsMode, env, req, steps - 1);
    }

    method AwaitSquashPolicy(filesystem: Filesystem, ghost mtlsMode: string,
                             ghost env: Env, ghost req: Request, ghost steps: nat)
      returns (failed: Option<Code>)
      requires Valid(client.State()) && steps >= 1 && req.CreateRequest? && req.parameters.Some?
      modifies client
      ensures ComesTo(env, req, old(Current()), AwaitSquash(filesystem, mtlsMode), old(client.net), steps,
                      Outcome(filesystem, mtlsMode, failed), 0)
    {
      hide IndexOk, QuotasOk;
      OneStep(env, req, Current(), Provisioning(AwaitSquash(filesystem, mtlsMode)), client.net, steps);
      var waited := client.WaitForPolicy(filesystem.spaceID, filesystem.id, PolicyActive);
      if waited.Failure? {
        return Some(WaitErrorCode(waited.error));
      }
      return None;
    }
  }
}
