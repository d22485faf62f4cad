// Without faults of the network, and beside other peaceful requests, no
// CreateVolume of a well-formed job fails that the account can answer.
module ProvisioningProgress {
  import opened LinodeContract
  import opened Transport
  import opened AccessPolicies
  import opened ControllerSteps
  import opened ProvisioningSafety

  predicate AllDelivered(events: seq<Event>) {
    forall e | e in events && e.Step? :: e.d == Delivered
  }

  // What no step ever changes
  predicate SameAccount(b: Backend, b': Backend) {
    b'.spaceID == b.spaceID && b'.spaceLabel == b.spaceLabel && b'.region == b.region && b'.linodes == b.linodes
  }

  lemma CreateStepKeepsAccount(env: Env, b: Backend, req: Request, parameters: Parameters, step: CreateStage,
                               d: Delivery)
    requires Valid(b) && req.CreateRequest?
    ensures SameAccount(b, CreateStep(env, b, req, parameters, step, d).0)
  {
    hide IndexOk, QuotasOk;
  }

  lemma StepKeepsAccount(env: Env, w: World, req: Request, pc: Pc, d: Delivery)
    requires Valid(w.b)
    ensures SameAccount(w.b, StepRpc(env, w, req, pc, d).0.b)
  {
    hide IndexOk, QuotasOk, CreateStep, CsiVolume, PublishedNodeIDs;
    if pc.Provisioning? && req.CreateRequest? && req.parameters.Some? {
      CreateStepKeepsAccount(env, w.b, req, req.parameters.value, pc.step, d);
    }
  }

  // Where an RPC stands that has met no error
  ghost predicate Succeeds(b: Backend, pc: Pc) {
    match pc
    case Begin => true
    case Provisioning(ReadSpacePolicy(spaceID)) => spaceID == b.spaceID
    case Provisioning(WriteSquash(_, _, update)) =>
      ValidPolicyUpdate(update) && update.linodeIDs.Some? && forall id | id in update.linodeIDs.value :: id in b.linodes
    case Provisioning(_) => true
    case Returned(response) => response.VolumeCreated?
    case _ => false
  }

  lemma FindSucceeds(env: Env, b: Backend, req: Request, job: Job)
    requires Valid(b) && Answerable(env, b, req, job)
    ensures Succeeds(b, FindStep(env, b, b.spaceID, b.mtlsMode, job.title, Delivered))
  {
    hide QuotasOk;
    LookupIsUnique(b, job.title, env.region);
    if Known(b, job) {
      NamesDiffer(b.spaceID, b.filesystems[IDOf(b, job)].nfsLabel, job.title);
    }
  }

  lemma CreateSucceeds(env: Env, b: Backend, req: Request, job: Job)
    requires Valid(b) && Answerable(env, b, req, job) && Accepted(b, job)
    ensures CreateFilesystem(b, b.spaceID, OptionsFor(env, req, job.parameters)).1.Success?
  {
    hide QuotasOk;
    if Known(b, job) {
      NamesDiffer(b.spaceID, b.filesystems[IDOf(b, job)].nfsLabel, job.title);
    }
  }

  lemma WaitSucceeds(env: Env, b: Backend, req: Request, step: CreateStage, job: Job)
    requires Valid(b) && Asks(req, job) && Accepted(b, job)
    requires (step.AwaitCreated? || step.AwaitExisting?) && Tracks(b, job, Provisioning(step))
    ensures var (b', next) := CreateStep(env, b, req, job.parameters, step, Delivered);
            Succeeds(b', next)
  {
    hide QuotasOk;
    ActiveHasTarget(env.parse, b.filesystems[IDOf(b, job)]);
  }

  lemma SquashSucceeds(env: Env, b: Backend, parameters: Parameters, step: CreateStage, job: Job)
    requires Valid(b) && Tracks(b, job, Provisioning(step)) && Succeeds(b, Provisioning(step))
    requires step.ReadSquash? || step.WriteSquash? || step.AwaitSquash?
    ensures var (b', next) := SquashStep(env, b, parameters, step, Delivered);
            Succeeds(b', next)
  {
    hide QuotasOk;
    match step
    case ReadSquash(f, _) =>
      assert f.id in b.filesystems && f.spaceID == b.spaceID && PolicyOk(b, b.policies[f.id]);
      if parameters.squash.Some? {
        SquashUpdateIsAccepted(b, env.mode, b.policies[f.id], parameters.squash.value);
      }
    case _ =>
  }

  lemma StepSucceeds(env: Env, w: World, req: Request, pc: Pc, job: Job)
    requires Valid(w.b) && Answerable(env, w.b, req, job) && Accepted(w.b, job)
    requires Tracks(w.b, job, pc) && Succeeds(w.b, pc)
    ensures var (w', pc') := StepRpc(env, w, req, pc, Delivered);
            Succeeds(w'.b, pc')
  {
    hide IndexOk, QuotasOk, Accepted;
    match pc
    case Provisioning(FindFilesystem(_, _)) => FindSucceeds(env, w.b, req, job);
    case Provisioning(CallCreate(_, _)) => CreateSucceeds(env, w.b, req, job);
    case Provisioning(AwaitCreated(_, _)) => WaitSucceeds(env, w.b, req, pc.step, job);
    case Provisioning(AwaitExisting(_, _)) => WaitSucceeds(env, w.b, req, pc.step, job);
    case Provisioning(ResolveSpace) =>
    case Provisioning(ReadSpacePolicy(_)) =>
    case Provisioning(step) => SquashSucceeds(env, w.b, job.parameters, step, job);
    case _ =>
  }

  ghost predicate AllSucceed(env: Env, s: System, job: Job)
    requires Valid(s.w.b)
  {
    forall id | id in s.rpcs && Answerable(env, s.w.b, s.rpcs[id].req, job) :: Succeeds(s.w.b, s.rpcs[id].pc)
  }

  lemma SucceedsKept(b: Backend, b': Backend, pc: Pc)
    requires SameAccount(b, b') && Succeeds(b, pc)
    ensures Succeeds(b', pc)
  {
  }

  lemma ApplyKeepsSuccess(env: Env, s: System, e: Event, reqs: set<Request>, job: Job)
    requires Valid(s.w.b) && OnTrack(s, reqs, job) && AllSucceed(env, s, job) && (e.Step? ==> e.d == Delivered)
    ensures AllSucceed(env, Apply(env, s, e), job)
    ensures SameAccount(s.w.b, Apply(env, s, e).w.b)
  {
    hide IndexOk, QuotasOk, StepRpc, Succeeds, Accepted, Tracks;
    var s' := Apply(env, s, e);
    if e.Step? && e.id in s.rpcs {
      StepKeepsAccount(env, s.w, s.rpcs[e.id].req, s.rpcs[e.id].pc, e.d);
      forall id | id in s'.rpcs && Answerable(env, s'.w.b, s'.rpcs[id].req, job)
        ensures Succeeds(s'.w.b, s'.rpcs[id].pc)
      {
        if id == e.id {
          StepSucceeds(env, s.w, s.rpcs[id].req, s.rpcs[id].pc, job);
        } else {
          SucceedsKept(s.w.b, s'.w.b, s.rpcs[id].pc);
        }
      }
    } else {
      assert Succeeds(s.w.b, Begin) by {
        BeginSucceeds(s.w.b);
      }
    }
  }

  lemma BeginSucceeds(b: Backend)
    ensures Succeeds(b, Begin)
  {
  }

  lemma {:induction false} SuccessAlong(env: Env, s: System, events: seq<Event>, reqs: set<Request>, job: Job)
    requires Valid(s.w.b) && OnTrack(s, reqs, job) && AllSucceed(env, s, job) && Draws(events, reqs)
    requires AllDelivered(events) && WellFormed(job.range) && job.title != "" && env.region != ""
    ensures AllSucceed(env, Run(env, s, events), job) && SameAccount(s.w.b, Run(env, s, events).w.b)
    decreases events
  {
    hide IndexOk, QuotasOk, StepRpc, OnTrack, AllSucceed, Apply;
    if events != [] {
      ApplyKeepsSuccess(env, s, events[0], reqs, job);
      ApplyKeepsOnTrack(env, s, events[0], reqs, job);
      SuccessAlong(env, Apply(env, s, events[0]), events[1..], reqs, job);
    }
  }

  // In every run of peaceful requests whose calls are all delivered, each
  // answerable request that has returned has succeeded.
  lemma DeliveredCallsSucceed(env: Env, s: System, events: seq<Event>, reqs: set<Request>, job: Job, id: nat)
    requires Initial(s) && Draws(events, reqs) && AllDelivered(events)
    requires Accepted(s.w.b, job) && AllPeaceful(s.w.b, reqs, job) && WellFormed(job.range)
    requires var s' := Run(env, s, events);
             id in s'.rpcs && Answerable(env, s.w.b, s'.rpcs[id].req, job) && s'.rpcs[id].pc.Returned?
    ensures Run(env, s, events).rpcs[id].pc.response.VolumeCreated?
  {
    hide IndexOk, QuotasOk, StepRpc, Accepted, Peaceful;
    SuccessAlong(env, s, events, reqs, job);
    var s' := Run(env, s, events);
    assert Answerable(env, s'.w.b, s'.rpcs[id].req, job);
    assert Succeeds(s'.w.b, s'.rpcs[id].pc);
  }
}
