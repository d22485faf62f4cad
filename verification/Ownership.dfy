// The filesystem that a CreateVolume in flight works on: in every run it is the
// one of its label, in its space, and with its tags.
module Ownership {
  import opened Handles
  import opened Labels
  import opened NfsModel
  import opened LinodeContract
  import opened Transport
  import opened AccessPolicies
  import opened ControllerSteps
  import opened VolumeFrames

  // A CreateVolume that passes the checks on its own fields
  predicate Provisionable(req: Request) {
    req.CreateRequest? && req.name != "" && req.capabilitiesSupported && req.source.NoSource? && req.parameters.Some?
  }

  predicate SpaceMatches(space: SpaceReference, spaceID: int) {
    space.SpaceByID? ==> space.spaceID == spaceID
  }

  function HandleOf(f: Filesystem): Handle {
    Handle(f.spaceID, f.id)
  }

  // k is a filesystem of the request's label, in its space.
  predicate Owns(b: Backend, h: Handle, req: Request, k: Handle)
    requires Provisionable(req)
  {
    && SpaceFound(b, req.parameters.value.space) && k.spaceID == b.spaceID
    && (k == h ==> !Unborn(b, h) && (Live(b, h) ==> LabelOf(req.name) == b.filesystems[h.filesystemID].nfsLabel))
  }

  predicate OwnsTagged(b: Backend, h: Handle, req: Request, k: Handle)
    requires Provisionable(req)
  {
    && Owns(b, h, req, k)
    && (k == h && Live(b, h) ==> b.filesystems[h.filesystemID].tags == TagList(req.parameters.value))
  }

  predicate Placed(b: Backend, h: Handle, rpc: Rpc) {
    rpc.pc.Provisioning? ==>
      && Provisionable(rpc.req)
      && var parameters := rpc.req.parameters.value;
         match rpc.pc.step
         case ResolveSpace => true
         case ReadSpacePolicy(spaceID) => SpaceFound(b, parameters.space) && spaceID == b.spaceID
         case FindFilesystem(spaceID, mode) =>
           SpaceFound(b, parameters.space) && spaceID == b.spaceID && mode == b.mtlsMode
         case CallCreate(spaceID, mode) =>
           SpaceFound(b, parameters.space) && spaceID == b.spaceID && mode == b.mtlsMode
         case AwaitCreated(k, mode) => OwnsTagged(b, h, rpc.req, k) && mode == b.mtlsMode
         case AwaitExisting(k, mode) => Owns(b, h, rpc.req, k) && mode == b.mtlsMode
         case ReadSquash(f, mode) =>
           OwnsTagged(b, h, rpc.req, HandleOf(f)) && parameters.squash.Some? && mode == b.mtlsMode
         case WriteSquash(f, mode, _) =>
           OwnsTagged(b, h, rpc.req, HandleOf(f)) && parameters.squash.Some? && mode == b.mtlsMode
         case AwaitSquash(f, mode) =>
           OwnsTagged(b, h, rpc.req, HandleOf(f)) && parameters.squash.Some? && mode == b.mtlsMode
  }

  lemma FindPlaces(env: Env, b: Backend, h: Handle, req: Request, spaceID: int, mtlsMode: string, d: Delivery)
    requires Valid(b) && Placed(b, h, Rpc(req, Provisioning(FindFilesystem(spaceID, mtlsMode))))
    ensures Placed(b, h, Rpc(req, FindStep(env, b, spaceID, mtlsMode, LabelOf(req.name), d)))
  {
    hide QuotasOk;
    if LabelOf(req.name) != "" {
      LookupIsUnique(b, LabelOf(req.name), env.region);
    } else {
      NothingIsUnlabelled(b, env.region);
    }
    if Live(b, h) {
      LiveIsBorn(b, h);
    }
  }

  // Every listed filesystem has a label.
  lemma NothingIsUnlabelled(b: Backend, region: string)
    requires Valid(b)
    ensures ListFilesystems(b, b.spaceID, "", region).Success?
    ensures forall f | f in ListFilesystems(b, b.spaceID, "", region).value :: f.nfsLabel != ""
  {
    hide QuotasOk;
    var ids := MatchingIDs(b, "", region);
    SortedIDsAreSorted(ids);
    var sorted, listed := SortedIDs(ids), ListFilesystems(b, b.spaceID, "", region).value;
    forall i | 0 <= i < |listed| ensures listed[i].nfsLabel != "" {
      assert sorted[i] in sorted;
      assert listed[i] == b.filesystems[sorted[i]];
    }
  }

  lemma CreatePlaces(env: Env, b: Backend, h: Handle, req: Request, spaceID: int, mtlsMode: string, d: Delivery)
    requires Valid(b) && Placed(b, h, Rpc(req, Provisioning(CallCreate(spaceID, mtlsMode))))
    ensures var (b', next) := CreateStep(env, b, req, req.parameters.value, CallCreate(spaceID, mtlsMode), d);
            Valid(b') && Placed(b', h, Rpc(req, next))
  {
    hide QuotasOk, LabelOf, CreateFilesystem;
    var options := OptionsFor(env, req, req.parameters.value);
    CreateKeepsValid(b, spaceID, options);
    CreateFrame(b, spaceID, options, h);
    if CreateFilesystem(b, spaceID, options).1.Success? {
      CreatedAsAsked(b, spaceID, options);
    }
  }

  lemma CreatedAsAsked(b: Backend, spaceID: int, options: CreateOptions)
    requires Valid(b) && CreateFilesystem(b, spaceID, options).1.Success?
    ensures var (b', reply) := CreateFilesystem(b, spaceID, options);
            && Valid(b') && reply.value.spaceID == b.spaceID == spaceID && reply.value.id < b'.nextFilesystemID
            && b'.spaceID == b.spaceID && b'.spaceLabel == b.spaceLabel && b'.mtlsMode == b.mtlsMode
            && reply.value.id in b'.filesystems
            && b'.filesystems[reply.value.id].nfsLabel == options.nfsLabel
            && b'.filesystems[reply.value.id].tags == TagsOf(options)
  {
    hide QuotasOk;
    CreateKeepsValid(b, spaceID, options);
    var (b', reply) := CreateFilesystem(b, spaceID, options);
    var name := FilesystemName(spaceID, options.nfsLabel);
    if name in b.filesystemByName {
      NamesDiffer(spaceID, b.filesystems[b.filesystemByName[name]].nfsLabel, options.nfsLabel);
      var id := b.filesystemByName[name];
      assert id in b.filesystems && b.filesystems[id].id == id && reply.value == b.filesystems[id];
    } else {
      assert reply.value == NewFilesystem(b.nextFilesystemID, spaceID, options);
    }
  }

  // Waiting returns the filesystem itself, now active.
  lemma AwaitedIsOwn(b: Backend, k: Handle)
    requires Valid(b)
    ensures var (b', reply) := WaitForFilesystem(b, k.spaceID, k.filesystemID, FilesystemActive);
            && Valid(b') && (reply.Success? <==> Live(b, k))
            && (reply.Success? ==>
                  && Live(b', k) && HandleOf(reply.value) == k
                  && reply.value.nfsLabel == b'.filesystems[k.filesystemID].nfsLabel
                  && reply.value.tags == b'.filesystems[k.filesystemID].tags)
  {
    hide QuotasOk, Activate;
    WaitForFilesystemKeepsValid(b, k.spaceID, k.filesystemID, FilesystemActive);
    if Live(b, k) {
      ActivateKeeps(b.filesystems[k.filesystemID]);
    }
  }

  lemma WaitPlaces(env: Env, b: Backend, h: Handle, req: Request, step: CreateStage, d: Delivery)
    requires Valid(b) && Placed(b, h, Rpc(req, Provisioning(step))) && (step.AwaitCreated? || step.AwaitExisting?)
    ensures var (b', next) := CreateStep(env, b, req, req.parameters.value, step, d);
            Valid(b') && Placed(b', h, Rpc(req, next))
  {
    hide IndexOk, QuotasOk, LabelOf, WaitForFilesystem, CapacityCompatible, CsiVolume;
    AwaitedIsOwn(b, step.h);
    WaitForFilesystemFrame(b, step.h, h);
    PlacedKept(b, WaitForFilesystem(b, step.h.spaceID, step.h.filesystemID, FilesystemActive).0, h,
               Rpc(req, Provisioning(step)), false, false);
  }

  // Placed does not depend on policies or capacities.
  lemma PlacedKept(b: Backend, b': Backend, h: Handle, rpc: Rpc, policy: bool, capacity: bool)
    requires Valid(b) && Valid(b') && Framed(b, b', h, policy, capacity) && Placed(b, h, rpc)
    ensures Placed(b', h, rpc)
  {
    hide IndexOk, QuotasOk, LabelOf;
  }

  lemma SquashPlaces(env: Env, b: Backend, h: Handle, req: Request, step: CreateStage, d: Delivery)
    requires Valid(b) && Placed(b, h, Rpc(req, Provisioning(step)))
    requires step.ReadSquash? || step.WriteSquash? || step.AwaitSquash?
    ensures var (b', next) := SquashStep(env, b, req.parameters.value, step, d);
            Valid(b') && Placed(b', h, Rpc(req, next))
  {
    hide IndexOk, QuotasOk, Owns, SquashUpdate, CsiVolume;
    match step
    case ReadSquash(_, _) =>
    case WriteSquash(f, _, update) =>
      UpdatePolicyFrame(b, HandleOf(f), update, h);
      PlacedKept(b, UpdatePolicy(b, f.spaceID, f.id, update).0, h, Rpc(req, Provisioning(step)), HandleOf(f) == h,
                 false);
    case AwaitSquash(f, _) =>
      WaitForPolicyFrame(b, HandleOf(f), h);
      PlacedKept(b, WaitForPolicy(b, f.spaceID, f.id, PolicyActive).0, h, Rpc(req, Provisioning(step)), false, false);
  }

  lemma CreateStepPlaces(env: Env, b: Backend, h: Handle, req: Request, step: CreateStage, d: Delivery)
    requires Valid(b) && Placed(b, h, Rpc(req, Provisioning(step)))
    ensures var (b', next) := CreateStep(env, b, req, req.parameters.value, step, d);
            Valid(b') && Placed(b', h, Rpc(req, next))
  {
    hide IndexOk, QuotasOk;
    CreateStepKeepsValid(env, b, req, req.parameters.value, step, d);
    match step
    case ResolveSpace =>
    case ReadSpacePolicy(_) =>
    case FindFilesystem(spaceID, mtlsMode) => FindPlaces(env, b, h, req, spaceID, mtlsMode, d);
    case CallCreate(spaceID, mtlsMode) => CreatePlaces(env, b, h, req, spaceID, mtlsMode, d);
    case AwaitCreated(_, _) => WaitPlaces(env, b, h, req, step, d);
    case AwaitExisting(_, _) => WaitPlaces(env, b, h, req, step, d);
    case _ => SquashPlaces(env, b, h, req, step, d);
  }

  lemma StepPlaces(env: Env, w: World, rpc: Rpc, d: Delivery, h: Handle)
    requires Valid(w.b) && Placed(w.b, h, rpc)
    ensures var (w', pc') := StepRpc(env, w, rpc.req, rpc.pc, d);
            Valid(w'.b) && Placed(w'.b, h, Rpc(rpc.req, pc'))
  {
    hide IndexOk, QuotasOk;
    StepKeepsValid(env, w, rpc.req, rpc.pc, d);
    match rpc.pc
    case Provisioning(step) => CreateStepPlaces(env, w.b, h, rpc.req, step, d);
    case _ =>
  }

  // A squash update is decided on, sent and awaited in this order.

  predicate Squashing(pc: Pc) {
    pc.Provisioning? && (pc.step.ReadSquash? || pc.step.WriteSquash? || pc.step.AwaitSquash?)
  }

  lemma EarlySteps(env: Env, b: Backend, req: Request, step: CreateStage, d: Delivery)
    requires Valid(b) && req.CreateRequest? && req.parameters.Some? && !Squashing(Provisioning(step))
    ensures var next := CreateStep(env, b, req, req.parameters.value, step, d).1;
            Squashing(next) ==> next.step.ReadSquash?
  {
    hide IndexOk, QuotasOk, CsiVolume, Activate, LabelOf;
  }

  lemma StepsBeforeSquash(env: Env, w: World, rpc: Rpc, d: Delivery, h: Handle)
    requires Valid(w.b) && Placed(w.b, h, rpc) && !Squashing(rpc.pc)
    ensures var next := StepRpc(env, w, rpc.req, rpc.pc, d).1;
            Squashing(next) ==> next.step.ReadSquash?
  {
    hide IndexOk, QuotasOk, CsiVolume, CreateStep, LockedStep;
    if rpc.pc.Provisioning? {
      EarlySteps(env, w.b, rpc.req, rpc.pc.step, d);
    }
  }

  lemma StepsOfSquash(env: Env, w: World, rpc: Rpc, d: Delivery, h: Handle)
    requires Valid(w.b) && Placed(w.b, h, rpc) && Squashing(rpc.pc)
    ensures var (w', next) := StepRpc(env, w, rpc.req, rpc.pc, d);
            (w'.b, next) == SquashStep(env, w.b, rpc.req.parameters.value, rpc.pc.step, d)
  {
    hide IndexOk, QuotasOk, SquashStep;
  }

  // What holds of the RPCs of every run, whatever they are for.
  ghost predicate Consistent(s: System, reqs: set<Request>, h: Handle) {
    forall id | id in s.rpcs ::
      s.rpcs[id].req in reqs && Fits(s.rpcs[id].req, s.rpcs[id].pc) && Placed(s.w.b, h, s.rpcs[id])
  }

  lemma ApplyKeepsConsistent(env: Env, s: System, e: Event, reqs: set<Request>, h: Handle)
    requires Valid(s.w.b) && Consistent(s, reqs, h) && (e.Start? ==> e.req in reqs)
    ensures Consistent(Apply(env, s, e), reqs, h)
  {
    hide IndexOk, QuotasOk, StepRpc;
    if e.Step? && e.id in s.rpcs {
      var rpc := s.rpcs[e.id];
      StepFits(env, s.w, rpc.req, rpc.pc, e.d);
      StepPlaces(env, s.w, rpc, e.d, h);
      forall other | other in s.rpcs && other != e.id ensures Placed(Apply(env, s, e).w.b, h, s.rpcs[other]) {
        ApplyFrame(env, s, e, h);
        PlacedKept(s.w.b, Apply(env, s, e).w.b, h, s.rpcs[other], true, true);
      }
    }
  }

  lemma {:induction false} ConsistentAlong(env: Env, s: System, events: seq<Event>, reqs: set<Request>, h: Handle)
    requires Valid(s.w.b) && Consistent(s, reqs, h) && Draws(events, reqs)
    ensures Consistent(Run(env, s, events), reqs, h)
    decreases events
  {
    hide IndexOk, QuotasOk, StepRpc, Consistent;
    if events != [] {
      ApplyKeepsConsistent(env, s, events[0], reqs, h);
      ConsistentAlong(env, Apply(env, s, events[0]), events[1..], reqs, h);
    }
  }

  // In every run of a set of requests, an RPC at a stage belongs to a request
  // that leads there, and a CreateVolume that waits for h or works on its policy
  // has its label, refers to its space and, unless still to be checked, has its
  // tags.
  lemma StagesFitRequests(env: Env, s: System, events: seq<Event>, reqs: set<Request>, h: Handle)
    requires Initial(s) && Draws(events, reqs)
    ensures Consistent(Run(env, s, events), reqs, h)
  {
    hide IndexOk, QuotasOk;
    ConsistentAlong(env, s, events, reqs, h);
  }
}
