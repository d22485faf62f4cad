// Initial states with one filesystem, and the first steps of runs from them.
module Witnesses {
  import opened Wrappers
  import opened Text
  import opened NfsModel
  import opened LinodeContract
  import opened Transport
  import opened ControllerSteps
  import opened Ownership

  // A backend that holds this filesystem alone
  function OneFilesystem(f: Filesystem, policy: Policy, spaceLabel: string, linodes: set<int>): Backend {
    Backend(f.spaceID, spaceLabel, "", f.region, linodes, map[f.id := f],
            map[FilesystemName(f.spaceID, f.nfsLabel) := f.id], map[f.id := policy],
            map[0 := Quota(0, f.id, true, Some(f.maxCapacity))], f.id + 1, 1)
  }

  lemma OneFilesystemIsValid(f: Filesystem, policy: Policy, spaceLabel: string, linodes: set<int>)
    requires f.nfsLabel != "" && f.protocols == [NFSv4] && forall id | id in linodes :: IsInt(id)
    requires policy.filesystemID == f.id && policy.protocols == [NFSv4]
    requires Distinct(policy.acl) && forall id | id in policy.acl :: id > 0 && id in linodes
    ensures Valid(OneFilesystem(f, policy, spaceLabel, linodes))
  {
    var b := OneFilesystem(f, policy, spaceLabel, linodes);
    assert b.quotas[0].filesystemID == f.id;
  }

  function Fresh(b: Backend): System {
    System(World(b, {}), map[])
  }

  lemma RunOne(env: Env, s: System, e: Event)
    requires Valid(s.w.b)
    ensures Run(env, s, [e]) == Apply(env, s, e)
  {
    hide IndexOk, QuotasOk;
    assert [e][1..] == [];
    assert Run(env, Apply(env, s, e), []) == Apply(env, s, e);
  }

  // No RPC with this number is in flight yet, and the lock is free.
  ghost predicate CanStart(s: System, id: nat, req: Request) {
    id !in s.rpcs && (LocksVolume(req) ==> req.volumeID !in s.w.locks)
  }

  // An RPC moves to pc, and the world to w.
  function Moved(s: System, id: nat, req: Request, w: World, pc: Pc): System {
    System(w, s.rpcs[id := Rpc(req, pc)])
  }

  lemma Starts(env: Env, s: System, id: nat, req: Request) returns (events: seq<Event>)
    requires Valid(s.w.b) && id !in s.rpcs
    ensures Draws(events, {req}) && Run(env, s, events) == Moved(s, id, req, s.w, Begin)
  {
    events := [Start(id, req)];
    RunOne(env, s, events[0]);
  }

  // One more step of an RPC, all calls delivered
  lemma Steps(env: Env, s: System, events: seq<Event>, id: nat, req: Request, w: World, pc: Pc, w': World, pc': Pc)
    returns (longer: seq<Event>)
    requires Valid(s.w.b) && Valid(w.b) && Run(env, s, events) == Moved(s, id, req, w, pc)
    requires StepRpc(env, w, req, pc, Delivered) == (w', pc')
    ensures Run(env, s, longer) == Moved(s, id, req, w', pc')
    ensures longer == events + [Step(id, Delivered)]
    ensures forall reqs | Draws(events, reqs) :: Draws(longer, reqs)
  {
    hide IndexOk, QuotasOk, StepRpc;
    var e := Step(id, Delivered);
    longer := events + [e];
    RunInTwo(env, s, events, [e]);
    RunOne(env, Moved(s, id, req, w, pc), e);
    assert Moved(s, id, req, w, pc).rpcs[id := Rpc(req, pc')] == s.rpcs[id := Rpc(req, pc')];
  }

  // A label of the space that this reference names
  function SpaceLabelFor(space: SpaceReference): string {
    if space.SpaceByLabel? then space.title else ""
  }

  // The first steps of a CreateVolume
  lemma StartsProvisioning(env: Env, w: World, req: Request)
    requires Valid(w.b) && Provisionable(req) && SpaceFound(w.b, req.parameters.value.space)
    ensures StepRpc(env, w, req, Begin, Delivered) == (w, Provisioning(ResolveSpace))
    ensures StepRpc(env, w, req, Provisioning(ResolveSpace), Delivered) ==
            (w, Provisioning(ReadSpacePolicy(w.b.spaceID)))
    ensures StepRpc(env, w, req, Provisioning(ReadSpacePolicy(w.b.spaceID)), Delivered) ==
            (w, Provisioning(FindFilesystem(w.b.spaceID, w.b.mtlsMode)))
  {
    hide IndexOk, QuotasOk;
  }
}
