// What one CreateVolume answers when nothing disturbs it, for every request and
// every state, by the fields of both.
module CreateAnswers {
  import opened Wrappers
  import opened Handles
  import opened Labels
  import opened NfsModel
  import opened MountTargets
  import opened LinodeContract
  import opened Transport
  import opened AccessPolicies
  import opened Status
  import opened ControllerSteps
  import opened VolumeFrames
  import opened Ownership
  import opened QuotaSafety
  import opened SquashReconciliation
  import opened Witnesses
  import opened CreatedVolumes
  import opened UndisturbedCalls
  import opened ControllerAnswers
  import ProvisioningSafety

  // The checks on the request

  // What the request is refused for before any call on the API; region is the
  // fate of region discovery.
  function Refusal(req: Request, region: Delivery): Option<Code>
    requires req.CreateRequest?
  {
    if req.name == "" || !req.capabilitiesSupported then Some(InvalidArgument)
    else
      match req.source
      case OtherSource => Some(InvalidArgument)
      case FromSnapshot(snapshotID) =>
        if snapshotID == "" then Some(InvalidArgument)
        else if ParseSnapshotHandle(snapshotID) == None then Some(NotFoundCode)
        else Some(Unimplemented)
      case NoSource =>
        if req.parameters == None then Some(InvalidArgument)
        else if !region.Delivered? then Some(FailedPrecondition)
        else None
  }

  lemma CreateRefusal(env: Env, w: World, req: Request, region: Delivery, steps: nat)
    requires Valid(w.b) && req.CreateRequest? && Refusal(req, region).Some? && steps >= 1
    ensures Alone(env, w, req, Begin, [region], steps) == (w, Returned(Error(Refusal(req, region).value)))
  {
    hide IndexOk, QuotasOk, Alone;
    AloneStep(env, w, req, Begin, [region], steps);
    AloneDone(env, w, req, Returned(Error(Refusal(req, region).value)), Later([region]), steps - 1);
  }

  // Finding the space

  lemma NoSpaceIsNotFound(env: Env, w: World, req: Request, steps: nat)
    requires Valid(w.b) && Provisionable(req) && steps >= 2
    requires !SpaceFound(w.b, req.parameters.value.space)
    ensures Refused(env, w, req, steps, NotFoundCode)
  {
    hide IndexOk, QuotasOk, Alone;
    var response := Error(NotFoundCode);
    AloneDone(env, w, req, Returned(response), [], steps - 2);
    AfterStep(env, w, req, Provisioning(ResolveSpace), steps - 1, w, Returned(response), w, response);
    AfterStep(env, w, req, Begin, steps, w, Provisioning(ResolveSpace), w, response);
  }

  // From the lookup on
  lemma ComesToLookup(env: Env, w: World, req: Request, steps: nat, w': World, response: Response)
    requires Valid(w.b) && Provisionable(req) && SpaceFound(w.b, req.parameters.value.space) && steps >= MAX_STEPS
    requires EndsIn(env, w, req, Provisioning(FindFilesystem(w.b.spaceID, w.b.mtlsMode)), steps - 3, w', response)
    ensures EndsIn(env, w, req, Begin, steps, w', response)
  {
    hide IndexOk, QuotasOk, Alone, StepRpc;
    StartsProvisioning(env, w, req);
    var resolve, read := Provisioning(ResolveSpace), Provisioning(ReadSpacePolicy(w.b.spaceID));
    var find := Provisioning(FindFilesystem(w.b.spaceID, w.b.mtlsMode));
    AfterStep(env, w, req, read, steps - 2, w, find, w', response);
    AfterStep(env, w, req, resolve, steps - 1, w, read, w', response);
    AfterStep(env, w, req, Begin, steps, w, resolve, w', response);
  }

  lemma {:induction false} SortedIDsCount(ids: set<int>)
    ensures |SortedIDs(ids)| == |ids|
  {
    if ids != {} {
      SortedIDsCount(ids - {Least(ids)});
    }
  }

  // What the lookup finds: the filesystems of this label and region
  lemma LookUpLists(b: Backend, title: string, region: string)
    requires Valid(b)
    ensures var reply, ids := ListFilesystems(b, b.spaceID, title, region), MatchingIDs(b, title, region);
            && reply.Success? && |reply.value| == |ids|
            && forall id | ids == {id} :: id in b.filesystems && reply.value == [b.filesystems[id]]
  {
    hide IndexOk, QuotasOk, Matches;
    var ids := MatchingIDs(b, title, region);
    SortedIDsCount(ids);
    SortedIDsAreSorted(ids);
    forall id | ids == {id} ensures id in b.filesystems && Listed(b, SortedIDs(ids)) == [b.filesystems[id]] {
      assert id in ids;
      SortedSingleton(id);
    }
  }

  lemma LookUpSteps(env: Env, w: World, req: Request)
    requires Valid(w.b) && Provisionable(req)
    ensures var ids := MatchingIDs(w.b, LabelOf(req.name), env.region);
            var next := StepRpc(env, w, req, Provisioning(FindFilesystem(w.b.spaceID, w.b.mtlsMode)), Delivered);
            && next.0 == w
            && (|ids| == 0 ==> next.1 == Provisioning(CallCreate(w.b.spaceID, w.b.mtlsMode)))
            && (|ids| > 1 ==> next.1 == Fail(FailedPrecondition))
            && forall id | ids == {id} ::
                 && id in w.b.filesystems
                 && next.1 == if w.b.filesystems[id].nfsLabel == LabelOf(req.name) && w.b.region == env.region
                              then Provisioning(AwaitExisting(Handle(w.b.spaceID, id), w.b.mtlsMode))
                              else Fail(AlreadyExists)
  {
    hide QuotasOk, LabelOf, ListFilesystems, MatchingIDs;
    LookUpLists(w.b, LabelOf(req.name), env.region);
  }

  // A name without a label, or another region: nothing can be created there.
  lemma NothingToCreate(env: Env, w: World, req: Request, steps: nat)
    requires Valid(w.b) && Provisionable(req) && steps >= 2
    requires LabelOf(req.name) == "" || env.region != w.b.region
    ensures EndsIn(env, w, req, Provisioning(CallCreate(w.b.spaceID, w.b.mtlsMode)), steps, w, Error(InvalidArgument))
  {
    hide IndexOk, QuotasOk, Alone, LabelOf;
    var create := Provisioning(CallCreate(w.b.spaceID, w.b.mtlsMode));
    AloneDone(env, w, req, Returned(Error(InvalidArgument)), [], steps - 1);
    AfterStep(env, w, req, create, steps, w, Returned(Error(InvalidArgument)), w, Error(InvalidArgument));
  }

  lemma LookupEnds(env: Env, w: World, req: Request, steps: nat, code: Code)
    requires Valid(w.b) && Provisionable(req) && SpaceFound(w.b, req.parameters.value.space) && steps >= MAX_STEPS
    requires StepRpc(env, w, req, Provisioning(FindFilesystem(w.b.spaceID, w.b.mtlsMode)), Delivered) == (w, Fail(code))
    ensures Refused(env, w, req, steps, code)
  {
    hide IndexOk, QuotasOk, Alone, StepRpc;
    var find := Provisioning(FindFilesystem(w.b.spaceID, w.b.mtlsMode));
    AloneDone(env, w, req, Fail(code), [], steps - 4);
    AfterStep(env, w, req, find, steps - 3, w, Fail(code), w, Error(code));
    ComesToLookup(env, w, req, steps, w, Error(code));
  }

  lemma LookupLeads(env: Env, w: World, req: Request, steps: nat, next: Pc, w': World, response: Response)
    requires Valid(w.b) && Provisionable(req) && SpaceFound(w.b, req.parameters.value.space) && steps >= MAX_STEPS
    requires StepRpc(env, w, req, Provisioning(FindFilesystem(w.b.spaceID, w.b.mtlsMode)), Delivered) == (w, next)
    requires EndsIn(env, w, req, next, steps - 4, w', response)
    ensures EndsIn(env, w, req, Begin, steps, w', response)
  {
    hide IndexOk, QuotasOk, Alone, StepRpc;
    AfterStep(env, w, req, Provisioning(FindFilesystem(w.b.spaceID, w.b.mtlsMode)), steps - 3, w, next, w', response);
    ComesToLookup(env, w, req, steps, w', response);
  }

  // An empty label matches everything in the region.
  lemma EmptyLabelAnswer(env: Env, w: World, req: Request, steps: nat)
    requires Valid(w.b) && Provisionable(req) && SpaceFound(w.b, req.parameters.value.space) && steps >= MAX_STEPS
    requires LabelOf(req.name) == "" && env.region != ""
    ensures var listed := if env.region == w.b.region then |w.b.filesystems.Keys| else 0;
            Refused(env, w, req, steps,
                    if listed == 0 then InvalidArgument else if listed == 1 then AlreadyExists else FailedPrecondition)
  {
    hide QuotasOk, Alone, StepRpc, LabelOf;
    var ids := MatchingIDs(w.b, "", env.region);
    LookUpSteps(env, w, req);
    RegionMatches(w.b, env.region);
    if |ids| == 0 {
      NothingToCreate(env, w, req, steps - 4);
      LookupLeads(env, w, req, steps, Provisioning(CallCreate(w.b.spaceID, w.b.mtlsMode)), w, Error(InvalidArgument));
    } else if |ids| == 1 {
      var id := OnlyOne(ids);
      LookupEnds(env, w, req, steps, AlreadyExists);
    } else {
      LookupEnds(env, w, req, steps, FailedPrecondition);
    }
  }

  lemma RegionMatches(b: Backend, region: string)
    requires Valid(b) && region != ""
    ensures MatchingIDs(b, "", region) == if region == b.region then b.filesystems.Keys else {}
    ensures region != b.region ==> forall title :: MatchingIDs(b, title, region) == {}
  {
    hide QuotasOk;
    forall title, id | id in MatchingIDs(b, title, region) ensures b.region == region {
    }
    if region == b.region {
      assert forall id :: id in MatchingIDs(b, "", region) <==> id in b.filesystems.Keys;
    } else {
      forall title ensures MatchingIDs(b, title, region) == {} {
        assert forall id :: id !in MatchingIDs(b, title, region);
      }
    }
  }

  lemma OnlyOne(ids: set<int>) returns (id: int)
    requires |ids| == 1
    ensures ids == {id}
  {
    Inhabited(ids);
    id :| id in ids;
    assert |ids - {id}| == 0;
  }

  lemma OtherRegionAnswer(env: Env, w: World, req: Request, steps: nat)
    requires Valid(w.b) && Provisionable(req) && SpaceFound(w.b, req.parameters.value.space) && steps >= MAX_STEPS
    requires LabelOf(req.name) != "" && env.region != "" && env.region != w.b.region
    ensures Refused(env, w, req, steps, InvalidArgument)
  {
    hide QuotasOk, Alone, StepRpc, LabelOf;
    LookUpSteps(env, w, req);
    RegionMatches(w.b, env.region);
    NothingToCreate(env, w, req, steps - 4);
    LookupLeads(env, w, req, steps, Provisioning(CallCreate(w.b.spaceID, w.b.mtlsMode)), w, Error(InvalidArgument));
  }

  // What a success leaves

  // f' is f, active and with targets.
  ghost predicate Activates(env: Env, f: Filesystem, f': Filesystem) {
    && f'.(status := f.status, mountTargetIPs := f.mountTargetIPs, mountTargetFQDN := f.mountTargetFQDN) == f
    && f'.status == FilesystemActive && HasMountTarget(env.parse, f')
  }

  // The policy after reconciling its squash policy, if one was asked for
  predicate Squashed(mode: AccessPolicyMode, p: Policy, q: Policy, squash: Option<SquashPolicy>) {
    match squash
    case None => q == p
    case Some(wanted) =>
      && q.squash == wanted && q.status == PolicyActive
      && q.filesystemID == p.filesystemID && q.nfsLabel == p.nfsLabel && q.protocols == p.protocols
      && match mode
         case SpaceMode => q.enabled && q.acl == []
         case NodeMode => q.enabled == p.enabled && q.acl == p.acl
  }

  function SquashedPolicy(mode: AccessPolicyMode, p: Policy, squash: Option<SquashPolicy>): Policy {
    match squash
    case None => p
    case Some(wanted) => Settled(SquashGoal(mode, p, wanted))
  }

  lemma SquashedByMode(b: Backend, mode: AccessPolicyMode, p: Policy, squash: Option<SquashPolicy>)
    requires PolicyOk(b, p)
    ensures Squashed(mode, p, SquashedPolicy(mode, p, squash), squash)
  {
    NonZeroKeepsAll(p.acl);
  }

  lemma FinalizeEnds(env: Env, w: World, req: Request, f: Filesystem, mtlsMode: string, steps: nat)
    requires Valid(w.b) && Provisionable(req) && Live(w.b, HandleOf(f)) && HasMountTarget(env.parse, f) && steps >= 3
    ensures f.id in w.b.policies
    ensures var q := SquashedPolicy(env.mode, w.b.policies[f.id], req.parameters.value.squash);
            EndsIn(env, w, req, Finalize(env, f, mtlsMode, req.parameters.value), steps, WithPolicy(w, f.id, q),
                   VolumeCreated(CsiVolume(f, mtlsMode)))
  {
    hide IndexOk, QuotasOk, Alone, StepRpc, HasMountTarget, CsiVolume;
    var p, parameters := w.b.policies[f.id], req.parameters.value;
    if parameters.squash.Some? {
      PassReachesGoal(env, w, req, f, mtlsMode, [], steps, parameters.squash.value);
    } else {
      assert WithPolicy(w, f.id, p) == w;
      AloneDone(env, w, req, Finalize(env, f, mtlsMode, parameters), [], steps);
    }
  }

  // Waiting for a filesystem of the world w, and what follows
  lemma WaitActivates(env: Env, b: Backend, k: Handle)
    requires Valid(b) && Live(b, k)
    ensures var (b', reply) := WaitForFilesystem(b, k.spaceID, k.filesystemID, FilesystemActive);
            && Valid(b') && reply.Success? && Activates(env, b.filesystems[k.filesystemID], reply.value)
            && HandleOf(reply.value) == k
            && b' == b.(filesystems := b.filesystems[k.filesystemID := reply.value])
  {
    hide QuotasOk, HasMountTarget;
    WaitForFilesystemKeepsValid(b, k.spaceID, k.filesystemID, FilesystemActive);
    ProvisioningSafety.ActiveHasTarget(env.parse, b.filesystems[k.filesystemID]);
  }

  function After(w: World, f: Filesystem, q: Policy): World {
    w.(b := w.b.(filesystems := w.b.filesystems[f.id := f], policies := w.b.policies[f.id := q]))
  }

  // The call succeeded with the filesystem of this ID, as it is in w0: it is now
  // active, its policy is reconciled, all else is as in w0, and the volume is this
  // filesystem.
  ghost predicate Provisioned(env: Env, w0: World, id: int, squash: Option<SquashPolicy>, w': World, pc': Pc)
    requires id in w0.b.filesystems && id in w0.b.policies
  {
    exists f, q, volume ::
      && w' == After(w0, f, q) && f.id == id && Activates(env, w0.b.filesystems[id], f)
      && Squashed(env.mode, w0.b.policies[id], q, squash)
      && pc' == Returned(VolumeCreated(volume)) && Describes(volume, f, w0.b.mtlsMode)
  }

  // An existing filesystem is compatible with the request.
  predicate Compatible(f: Filesystem, range: Option<CapacityRange>, tags: Option<seq<string>>) {
    && (f.maxCapacity == 0 ||
        match range
        case None => f.maxCapacity > 0
        case Some(CapacityRange(required, limit)) =>
          required <= f.maxCapacity && (limit == 0 || f.maxCapacity <= limit))
    && f.tags == (match tags case None => [] case Some(given) => given)
  }

  // The first step of waiting, with the reply f
  lemma AwaitSteps(env: Env, w: World, req: Request, step: CreateStage, f: Filesystem)
    requires Valid(w.b) && Provisionable(req) && (step.AwaitCreated? || step.AwaitExisting?) && Live(w.b, step.h)
    requires Activates(env, w.b.filesystems[step.h.filesystemID], f)
    requires WaitForFilesystem(w.b, step.h.spaceID, step.h.filesystemID, FilesystemActive).1 == Success(f)
    ensures var w1 := w.(b := WaitForFilesystem(w.b, step.h.spaceID, step.h.filesystemID, FilesystemActive).0);
            StepRpc(env, w, req, Provisioning(step), Delivered) ==
            (w1, if step.AwaitExisting? && !Compatible(w.b.filesystems[step.h.filesystemID], req.range,
                                                       req.parameters.value.tags)
                 then Fail(AlreadyExists)
                 else Finalize(env, f, step.mtlsMode, req.parameters.value))
  {
    hide IndexOk, QuotasOk, HasMountTarget, CsiVolume, WaitForFilesystem;
    var g := w.b.filesystems[step.h.filesystemID];
    assert f.maxCapacity == g.maxCapacity && f.tags == g.tags by {
      assert f.(status := g.status, mountTargetIPs := g.mountTargetIPs, mountTargetFQDN := g.mountTargetFQDN) == g;
    }
    CompatibleIsChecked(f, req, req.parameters.value);
    CompatibleIsChecked(g, req, req.parameters.value);
  }

  lemma CompatibleIsChecked(f: Filesystem, req: Request, parameters: Parameters)
    requires req.CreateRequest?
    ensures Compatible(f, req.range, parameters.tags) <==>
            CapacityCompatible(f.maxCapacity, req.range) && f.tags == TagList(parameters)
  {
  }

  lemma AwaitEnds(env: Env, w: World, req: Request, step: CreateStage, steps: nat)
    requires Valid(w.b) && Provisionable(req) && steps >= 4 && (step.AwaitCreated? || step.AwaitExisting?)
    requires Live(w.b, step.h) && step.mtlsMode == w.b.mtlsMode
    requires step.AwaitExisting? ==>
               Compatible(w.b.filesystems[step.h.filesystemID], req.range, req.parameters.value.tags)
    ensures var (w', pc') := Alone(env, w, req, Provisioning(step), [], steps);
            Provisioned(env, w, step.h.filesystemID, req.parameters.value.squash, w', pc')
  {
    hide IndexOk, QuotasOk, Alone, HasMountTarget, CsiVolume, Describes, WaitForFilesystem, SquashedPolicy, Squashed;
    var k, parameters := step.h, req.parameters.value;
    WaitActivates(env, w.b, k);
    var (b1, reply) := WaitForFilesystem(w.b, k.spaceID, k.filesystemID, FilesystemActive);
    var w1, f := w.(b := b1), reply.value;
    var next := Finalize(env, f, step.mtlsMode, parameters);
    AwaitSteps(env, w, req, step, f);
    FinalizeEnds(env, w1, req, f, step.mtlsMode, steps - 1);
    var p := w.b.policies[f.id];
    var q := SquashedPolicy(env.mode, p, parameters.squash);
    AfterStep(env, w, req, Provisioning(step), steps, w1, next, WithPolicy(w1, f.id, q),
              VolumeCreated(CsiVolume(f, step.mtlsMode)));
    assert PolicyOk(w.b, p);
    SquashedByMode(w.b, env.mode, p, parameters.squash);
    AnswerDescribes(f, step.mtlsMode);
    assert WithPolicy(w1, f.id, q) == After(w, f, q);
  }

  lemma IncompatibleEnds(env: Env, w: World, req: Request, step: CreateStage, steps: nat)
    requires Valid(w.b) && Provisionable(req) && steps >= 2 && step.AwaitExisting? && Live(w.b, step.h)
    requires !Compatible(w.b.filesystems[step.h.filesystemID], req.range, req.parameters.value.tags)
    ensures var (w', pc') := Alone(env, w, req, Provisioning(step), [], steps);
            && pc' == Returned(Error(AlreadyExists))
            && exists f :: Activates(env, w.b.filesystems[step.h.filesystemID], f)
                           && w' == w.(b := w.b.(filesystems := w.b.filesystems[step.h.filesystemID := f]))
  {
    hide IndexOk, QuotasOk, Alone, HasMountTarget, WaitForFilesystem;
    var k := step.h;
    WaitActivates(env, w.b, k);
    var (b1, reply) := WaitForFilesystem(w.b, k.spaceID, k.filesystemID, FilesystemActive);
    var w1 := w.(b := b1);
    AwaitSteps(env, w, req, step, reply.value);
    AloneDone(env, w1, req, Fail(AlreadyExists), [], steps - 1);
    AfterStep(env, w, req, Provisioning(step), steps, w1, Fail(AlreadyExists), w1, Error(AlreadyExists));
  }

  // An existing label: the filesystem is returned if it is compatible, and
  // otherwise refused; either way it is active afterwards.
  lemma ExistingAnswer(env: Env, w: World, req: Request, id: int, steps: nat)
    requires Valid(w.b) && Provisionable(req) && SpaceFound(w.b, req.parameters.value.space) && steps >= MAX_STEPS
    requires LabelOf(req.name) != "" && env.region == w.b.region
    requires id in w.b.filesystems && w.b.filesystems[id].nfsLabel == LabelOf(req.name)
    ensures var (w', pc') := Call(env, w, req, steps);
            if Compatible(w.b.filesystems[id], req.range, req.parameters.value.tags) then
              Provisioned(env, w, id, req.parameters.value.squash, w', pc')
            else
              && pc' == Returned(Error(AlreadyExists))
              && exists f :: Activates(env, w.b.filesystems[id], f)
                             && w' == w.(b := w.b.(filesystems := w.b.filesystems[id := f]))
  {
    hide QuotasOk, Alone, StepRpc, LabelOf, Provisioned, Compatible, HasMountTarget;
    var step := AwaitExisting(Handle(w.b.spaceID, id), w.b.mtlsMode);
    LookUpSteps(env, w, req);
    ProvisioningSafety.LabelsAreUnique(w.b, id, id);
    assert MatchingIDs(w.b, LabelOf(req.name), env.region) == {id} by {
      forall other | other in w.b.filesystems && w.b.filesystems[other].nfsLabel == LabelOf(req.name)
        ensures other == id
      {
        ProvisioningSafety.LabelsAreUnique(w.b, id, other);
      }
    }
    if Compatible(w.b.filesystems[id], req.range, req.parameters.value.tags) {
      AwaitEnds(env, w, req, step, steps - 4);
    } else {
      IncompatibleEnds(env, w, req, step, steps - 4);
    }
    var (w', pc') := Alone(env, w, req, Provisioning(step), [], steps - 4);
    assert pc'.Returned? by {
      EndsReturned(env, w, req, step, steps - 4, id);
    }
    LookupLeads(env, w, req, steps, Provisioning(step), w', pc'.response);
  }

  lemma EndsReturned(env: Env, w: World, req: Request, step: CreateStage, steps: nat, id: int)
    requires Valid(w.b) && id in w.b.filesystems && id in w.b.policies
    requires var (w', pc') := Alone(env, w, req, Provisioning(step), [], steps);
             || pc' == Returned(Error(AlreadyExists))
             || (req.CreateRequest? && req.parameters.Some?
                && Provisioned(env, w, id, req.parameters.value.squash, w', pc'))
    ensures Alone(env, w, req, Provisioning(step), [], steps).1.Returned?
  {
    hide IndexOk, QuotasOk, Alone;
  }

  // A new filesystem

  function Given(tags: Option<seq<string>>): seq<string> {
    match tags
    case None => []
    case Some(given) => given
  }

  // The capacity that a new filesystem gets: the required one if it is positive,
  // otherwise the limit
  function Asked(range: Option<CapacityRange>): int {
    match range
    case None => 0
    case Some(CapacityRange(required, limit)) => if required > 0 then required else limit
  }

  // w0 is w with a new filesystem of these fields, with the next ID, disabled
  // policy and root quota.
  ghost predicate Introduced(w: World, w0: World, title: string, capacity: int, tags: seq<string>)
    requires Valid(w.b)
  {
    var id := w.b.nextFilesystemID;
    var f := Filesystem(id, w.b.spaceID, title, w.b.region, capacity, [NFSv4], Creating, tags, [], None);
    var p := Policy(id, title, false, [], RootSquash, [NFSv4], PolicyActive);
    && Valid(w0.b) && w0.locks == w.locks
    && w0.b.filesystems == w.b.filesystems[id := f] && w0.b.policies == w.b.policies[id := p]
    && w0.b.filesystemByName == w.b.filesystemByName[FilesystemName(w.b.spaceID, title) := id]
    && w0.b.nextFilesystemID == id + 1 && w0.b.spaceID == w.b.spaceID && w0.b.mtlsMode == w.b.mtlsMode
    && RootCapacity(w0.b, Handle(w.b.spaceID, id)) == Some(capacity)
    && forall q | q in w.b.quotas :: q in w0.b.quotas && w0.b.quotas[q] == w.b.quotas[q]
  }

  lemma CreateIntroduces(env: Env, w: World, req: Request) returns (w0: World)
    requires Valid(w.b) && Provisionable(req) && LabelOf(req.name) != "" && env.region == w.b.region
    requires forall id | id in w.b.filesystems :: w.b.filesystems[id].nfsLabel != LabelOf(req.name)
    ensures Introduced(w, w0, LabelOf(req.name), Asked(req.range), Given(req.parameters.value.tags))
    ensures StepRpc(env, w, req, Provisioning(CallCreate(w.b.spaceID, w.b.mtlsMode)), Delivered) ==
            (w0, Provisioning(AwaitCreated(Handle(w.b.spaceID, w.b.nextFilesystemID), w.b.mtlsMode)))
  {
    hide QuotasOk, LabelOf, RootCapacity;
    var options := OptionsFor(env, req, req.parameters.value);
    CreateKeepsValid(w.b, w.b.spaceID, options);
    w0 := w.(b := CreateFilesystem(w.b, w.b.spaceID, options).0);
    NewLabelIsFree(w.b, LabelOf(req.name));
    OldQuotasStay(w.b, options);
    RootCapacityIsCapacity(w0.b, Handle(w.b.spaceID, w.b.nextFilesystemID));
  }

  lemma NewLabelIsFree(b: Backend, title: string)
    requires Valid(b) && forall id | id in b.filesystems :: b.filesystems[id].nfsLabel != title
    ensures FilesystemName(b.spaceID, title) !in b.filesystemByName && b.nextFilesystemID !in b.filesystems
  {
    hide QuotasOk;
    var name := FilesystemName(b.spaceID, title);
    if name in b.filesystemByName {
      var id := b.filesystemByName[name];
      NamesDiffer(b.spaceID, b.filesystems[id].nfsLabel, title);
    }
  }

  lemma OldQuotasStay(b: Backend, options: CreateOptions)
    requires Valid(b)
    ensures var b' := CreateFilesystem(b, b.spaceID, options).0;
            forall q | q in b.quotas :: q in b'.quotas && b'.quotas[q] == b.quotas[q]
  {
    hide IndexOk;
    assert b.nextQuotaID !in b.quotas;
  }

  lemma NoneMatches(b: Backend, title: string, region: string)
    requires title != "" && forall id | id in b.filesystems :: b.filesystems[id].nfsLabel != title
    ensures MatchingIDs(b, title, region) == {}
  {
    assert forall id :: id !in MatchingIDs(b, title, region);
  }

  // A new label: a filesystem is created with what the request asks for, and then
  // provisioned.
  lemma NewAnswer(env: Env, w: World, req: Request, steps: nat) returns (w0: World)
    requires Valid(w.b) && Provisionable(req) && SpaceFound(w.b, req.parameters.value.space) && steps >= MAX_STEPS
    requires LabelOf(req.name) != "" && env.region == w.b.region
    requires forall id | id in w.b.filesystems :: w.b.filesystems[id].nfsLabel != LabelOf(req.name)
    ensures Introduced(w, w0, LabelOf(req.name), Asked(req.range), Given(req.parameters.value.tags))
    ensures var (w', pc') := Call(env, w, req, steps);
            Provisioned(env, w0, w.b.nextFilesystemID, req.parameters.value.squash, w', pc')
  {
    hide IndexOk, QuotasOk, Alone, StepRpc, LabelOf, Provisioned, RootCapacity;
    var id := w.b.nextFilesystemID;
    var step := AwaitCreated(Handle(w.b.spaceID, id), w.b.mtlsMode);
    var create := Provisioning(CallCreate(w.b.spaceID, w.b.mtlsMode));
    LookUpSteps(env, w, req);
    NoneMatches(w.b, LabelOf(req.name), env.region);
    w0 := CreateIntroduces(env, w, req);
    AwaitEnds(env, w0, req, step, steps - 5);
    var (w', pc') := Alone(env, w0, req, Provisioning(step), [], steps - 5);
    EndsReturned(env, w0, req, step, steps - 5, id);
    AfterStep(env, w, req, create, steps - 4, w0, Provisioning(step), w', pc'.response);
    LookupLeads(env, w, req, steps, create, w', pc'.response);
  }

  // A CreateVolume that passes its own checks: every request, every state.
  lemma CreateAnswer(env: Env, w: World, req: Request, steps: nat)
    requires Valid(w.b) && req.CreateRequest? && Refusal(req, Delivered) == None && env.region != ""
    requires steps >= MAX_STEPS
    ensures var title, parameters := LabelOf(req.name), req.parameters.value;
            var (w', pc') := Call(env, w, req, steps);
            var here := match parameters.space
                        case SpaceByID(spaceID) => spaceID == w.b.spaceID
                        case SpaceByLabel(spaceLabel) => spaceLabel == "" || spaceLabel == w.b.spaceLabel;
            if !here then Refused(env, w, req, steps, NotFoundCode)
            else if env.region != w.b.region then Refused(env, w, req, steps, InvalidArgument)
            else if title == "" then
              Refused(env, w, req, steps, if |w.b.filesystems.Keys| == 0 then InvalidArgument
                                          else if |w.b.filesystems.Keys| == 1 then AlreadyExists
                                          else FailedPrecondition)
            else if exists id :: id in w.b.filesystems && w.b.filesystems[id].nfsLabel == title then
              exists id | id in w.b.filesystems ::
                && w.b.filesystems[id].nfsLabel == title && id in w.b.policies
                && if Compatible(w.b.filesystems[id], req.range, parameters.tags) then
                     Provisioned(env, w, id, parameters.squash, w', pc')
                   else
                     && pc' == Returned(Error(AlreadyExists))
                     && exists f :: Activates(env, w.b.filesystems[id], f)
                                    && w' == w.(b := w.b.(filesystems := w.b.filesystems[id := f]))
            else
              exists w0 | Introduced(w, w0, title, Asked(req.range), Given(parameters.tags)) ::
                Provisioned(env, w0, w.b.nextFilesystemID, parameters.squash, w', pc')
  {
    hide IndexOk, QuotasOk, Alone, StepRpc, LabelOf, Provisioned, Compatible, HasMountTarget, Introduced;
    if !SpaceFound(w.b, req.parameters.value.space) {
      NoSpaceIsNotFound(env, w, req, steps);
    } else if LabelOf(req.name) == "" {
      EmptyLabelAnswer(env, w, req, steps);
    } else if env.region != w.b.region {
      OtherRegionAnswer(env, w, req, steps);
    } else if id :| id in w.b.filesystems && w.b.filesystems[id].nfsLabel == LabelOf(req.name) {
      ExistingAnswer(env, w, req, id, steps);
    } else {
      var w0 := NewAnswer(env, w, req, steps);
    }
  }

  // Beside other RPCs the label may have become known since the lookup. Then the
  // call returns that filesystem if its tags are the requested ones, whatever its
  // capacity, and otherwise the request is refused.
  lemma RacingCreateAnswer(env: Env, w: World, req: Request, id: int)
    requires Valid(w.b) && Provisionable(req) && LabelOf(req.name) != "" && env.region == w.b.region
    requires id in w.b.filesystems && w.b.filesystems[id].nfsLabel == LabelOf(req.name)
    ensures StepRpc(env, w, req, Provisioning(CallCreate(w.b.spaceID, w.b.mtlsMode)), Delivered) ==
            (w, if w.b.filesystems[id].tags == Given(req.parameters.value.tags)
                then Provisioning(AwaitCreated(Handle(w.b.spaceID, id), w.b.mtlsMode))
                else Returned(Error(FailedPrecondition)))
  {
    hide QuotasOk, LabelOf;
  }

  // Any filesystem without a usable target is refused, and none with one.
  lemma TargetIsRequired(env: Env, f: Filesystem, mtlsMode: string, parameters: Parameters)
    ensures Finalize(env, f, mtlsMode, parameters) == Returned(Error(FailedPrecondition)) <==>
            && (f.mountTargetFQDN == None || f.mountTargetFQDN == Some(""))
            && forall target, ip | target in f.mountTargetIPs && ip != "" :: !NativeAddress(env.parse, target, ip)
  {
    forall target, ip | target in f.mountTargetIPs && ip != "" && NativeAddress(env.parse, target, ip)
      ensures HasMountTarget(env.parse, f)
    {
      UsableIffNative(env.parse, target, ip);
      assert Usable(env.parse, target);
    }
    forall target | target in f.mountTargetIPs && Usable(env.parse, target)
      ensures NativeAddress(env.parse, target, MountTargetIP(env.parse, target))
    {
      UsableIffNative(env.parse, target, MountTargetIP(env.parse, target));
    }
  }
}
