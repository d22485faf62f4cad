// The node RPCs over all interleavings: when no mount is stacked on another, and
// how the mount calls follow the mTLS mode.
module NodeSafety {
  import opened Wrappers
  import opened MountTargets
  import opened MountTable
  import opened StageOptions
  import opened NodeSteps

  // Locks

  predicate InFlight(rpc: NodeRpc) {
    !rpc.pc.Begin? && !rpc.pc.Returned?
  }

  ghost predicate Holds(s: NodeSystem, id: nat) {
    id in s.rpcs && InFlight(s.rpcs[id])
  }

  // The locked keys are exactly those of the RPCs between acquire and release,
  // each held by one of them.
  ghost predicate LocksExact(s: NodeSystem) {
    && (forall id | Holds(s, id) :: LockKey(s.rpcs[id].req) in s.w.locks)
    && (forall i, j | Holds(s, i) && Holds(s, j) && i != j :: LockKey(s.rpcs[i].req) != LockKey(s.rpcs[j].req))
    && (forall key | key in s.w.locks :: exists id :: Holds(s, id) && LockKey(s.rpcs[id].req) == key)
  }

  ghost predicate LockChange(rpc: NodeRpc, rpc': NodeRpc, locks: set<string>, locks': set<string>) {
    && rpc'.req == rpc.req
    && if InFlight(rpc) == InFlight(rpc') then locks' == locks
       else if InFlight(rpc') then LockKey(rpc.req) !in locks && locks' == locks + {LockKey(rpc.req)}
       else locks' == locks - {LockKey(rpc.req)}
  }

  lemma StepChangesLocks(env: NodeEnv, w: NodeWorld, rpc: NodeRpc, o: Outcome)
    ensures var (w', rpc') := StepRpc(env, w, rpc, o);
            LockChange(rpc, rpc', w.locks, w'.locks)
  {
  }

  lemma LockChangeKeepsExact(s: NodeSystem, id: nat, w': NodeWorld, rpc': NodeRpc)
    requires LocksExact(s) && id in s.rpcs && LockChange(s.rpcs[id], rpc', s.w.locks, w'.locks)
    ensures LocksExact(NodeSystem(w', s.rpcs[id := rpc']))
  {
    var s' := NodeSystem(w', s.rpcs[id := rpc']);
    assert forall other | other != id :: Holds(s', other) == Holds(s, other);
    assert Holds(s', id) == InFlight(rpc');
    forall key | key in w'.locks
      ensures exists i :: Holds(s', i) && LockKey(s'.rpcs[i].req) == key
    {
      if key in s.w.locks {
        var i :| Holds(s, i) && LockKey(s.rpcs[i].req) == key;
        assert Holds(s', i) || i == id;
      } else {
        assert Holds(s', id);
      }
    }
  }

  lemma SameHolders(s: NodeSystem, s': NodeSystem)
    requires LocksExact(s) && s'.w.locks == s.w.locks
    requires forall id :: Holds(s', id) <==> Holds(s, id)
    requires forall id | Holds(s, id) && Holds(s', id) :: s'.rpcs[id].req == s.rpcs[id].req
    ensures LocksExact(s')
  {
  }

  lemma ApplyKeepsLocksExact(env: NodeEnv, s: NodeSystem, e: NodeEvent)
    requires LocksExact(s)
    ensures LocksExact(Apply(env, s, e))
  {
    match e
    case Start(id, req) =>
      if id !in s.rpcs {
        SameHolders(s, Apply(env, s, e));
      }
    case Step(id, o) =>
      if id in s.rpcs {
        var (w', rpc') := StepRpc(env, s.w, s.rpcs[id], o);
        StepChangesLocks(env, s.w, s.rpcs[id], o);
        LockChangeKeepsExact(s, id, w', rpc');
      }
  }

  // Two RPCs that hold their locks hold different ones.
  lemma HoldersDiffer(s: NodeSystem, i: nat, j: nat)
    requires LocksExact(s) && i in s.rpcs && j in s.rpcs && i != j
    requires InFlight(s.rpcs[i]) && InFlight(s.rpcs[j])
    ensures LockKey(s.rpcs[i].req) != LockKey(s.rpcs[j].req)
  {
    assert Holds(s, i) && Holds(s, j);
  }

  // The mount calls of a request

  // The calls that the request may make, each only after the one before failed
  function Plan(parse: AddressParser, req: NodeRequest): seq<MountCall>
    requires Acceptable(parse, req) && Mounts(req)
  {
    if req.PublishRequest? then [PublishCall(req)]
    else
      var (source, ips) := NodeTargets(parse, req.context);
      var options := OptionsFor(Flags(req.capability), ips);
      var plain, secure := StageCall(req, source, options), StageCall(req, source, options + [MTLS_OPTION]);
      var mode := LookUp(req.context, MTLS_MODE);
      if mode == MTLS_REQUIRED then [secure] else if mode == MTLS_OPTIONAL then [secure, plain] else [plain]
  }

  predicate AllFailed(tried: seq<Attempt>) {
    forall i | 0 <= i < |tried| :: !tried[i].ok
  }

  predicate FollowsPlan(tried: seq<Attempt>, plan: seq<MountCall>) {
    && |tried| <= |plan|
    && (forall i | 0 <= i < |tried| :: tried[i].call == plan[i])
    && (forall i | 0 <= i < |tried| - 1 :: !tried[i].ok)
  }

  // Where an RPC stands, and what it has tried so far
  predicate Fits(parse: AddressParser, rpc: NodeRpc) {
    match rpc.pc
    case Begin => rpc.tried == []
    case CheckPath => Acceptable(parse, rpc.req) && Mounts(rpc.req) && rpc.tried == []
    case MakeDirectory => Acceptable(parse, rpc.req) && Mounts(rpc.req) && rpc.tried == []
    case Mounting(call, fallback) =>
      && Acceptable(parse, rpc.req) && Mounts(rpc.req)
      && var plan, k := Plan(parse, rpc.req), |rpc.tried|;
         && k < |plan| && call == plan[k] && FollowsPlan(rpc.tried, plan) && AllFailed(rpc.tried)
         && fallback == if k + 1 < |plan| then Some(plan[k + 1]) else None
    case CleanUp => Acceptable(parse, rpc.req) && !Mounts(rpc.req) && rpc.tried == []
    case CleanUpStaging => Tried(parse, rpc) && rpc.req.PublishRequest? && rpc.tried != [] && AllFailed(rpc.tried)
    case Unlock(response) => Tried(parse, rpc) && Answers(parse, rpc, response)
    case Returned(response) => rpc.tried != [] ==> Tried(parse, rpc) && Answers(parse, rpc, response)
  }

  predicate Tried(parse: AddressParser, rpc: NodeRpc) {
    Acceptable(parse, rpc.req) &&
    if Mounts(rpc.req) then FollowsPlan(rpc.tried, Plan(parse, rpc.req)) else rpc.tried == []
  }

  // After mount calls, success means that the last one succeeded, and failure
  // that all of the plan failed.
  predicate Answers(parse: AddressParser, rpc: NodeRpc, response: NodeResponse)
    requires Tried(parse, rpc)
  {
    rpc.tried != [] ==>
      if response.Done? then rpc.tried[|rpc.tried| - 1].ok
      else AllFailed(rpc.tried) && |rpc.tried| == |Plan(parse, rpc.req)|
  }

  lemma FirstCallFits(parse: AddressParser, req: NodeRequest)
    requires Acceptable(parse, req) && Mounts(req)
    ensures var rpc := NodeRpc(req, FirstCall(parse, req), []);
            rpc.pc.Mounting? && rpc.pc.call.target == PathOf(req) && Fits(parse, rpc)
  {
  }

  lemma AfterMountFits(parse: AddressParser, rpc: NodeRpc, ok: bool)
    requires rpc.pc.Mounting? && Fits(parse, rpc)
    ensures Fits(parse,
            NodeRpc(rpc.req, AfterMount(rpc.req, rpc.pc.fallback, ok), rpc.tried + [Attempt(rpc.pc.call, ok)]))
  {
  }

  lemma StepFits(env: NodeEnv, w: NodeWorld, rpc: NodeRpc, o: Outcome)
    requires Fits(env.parse, rpc)
    ensures Fits(env.parse, StepRpc(env, w, rpc, o).1)
  {
    hide NodeTargets, OptionsFor;
    match rpc.pc
    case CheckPath => FirstCallFits(env.parse, rpc.req);
    case MakeDirectory => FirstCallFits(env.parse, rpc.req);
    case Mounting(call, _) => AfterMountFits(env.parse, rpc, PerformMount(env.clean, w.mounts, call, o).1);
    case _ =>
  }

  // No stacked mounts

  function Place(env: NodeEnv, req: NodeRequest): string {
    env.clean(PathOf(req))
  }

  // Requests that would mount at one place take the same lock.
  ghost predicate MountersAgree(env: NodeEnv, reqs: set<NodeRequest>) {
    forall a, b | a in reqs && b in reqs && Mounter(env, a) && Mounter(env, b) ::
      Place(env, a) == Place(env, b) ==> LockKey(a) == LockKey(b)
  }

  predicate Mounter(env: NodeEnv, req: NodeRequest) {
    Acceptable(env.parse, req) && Mounts(req)
  }

  // About to mount, an RPC finds its place unmounted.
  predicate Clear(env: NodeEnv, w: NodeWorld, rpc: NodeRpc) {
    rpc.pc.MakeDirectory? || rpc.pc.Mounting? ==> Place(env, rpc.req) !in w.mounts
  }

  ghost predicate Ready(env: NodeEnv, s: NodeSystem, reqs: set<NodeRequest>) {
    && LocksExact(s)
    && forall id | id in s.rpcs :: s.rpcs[id].req in reqs && Fits(env.parse, s.rpcs[id]) && Clear(env, s.w, s.rpcs[id])
  }

  // What a step may do to the mount table.
  predicate TableChange(env: NodeEnv, rpc: NodeRpc, mounts: Table, mounts': Table) {
    || mounts' == mounts
    || (rpc.pc.Mounting? && mounts' == mounts[Place(env, rpc.req) := rpc.pc.call.mount])
    || (rpc.pc.CleanUp? && mounts' == mounts - {Place(env, rpc.req)})
    || (rpc.pc.CleanUpStaging? && rpc.req.PublishRequest? && mounts' == mounts - {env.clean(rpc.req.stagingPath)})
  }

  lemma PlanTargets(parse: AddressParser, req: NodeRequest)
    requires Acceptable(parse, req) && Mounts(req)
    ensures forall i | 0 <= i < |Plan(parse, req)| :: Plan(parse, req)[i].target == PathOf(req)
  {
  }

  lemma StepChangesTable(env: NodeEnv, w: NodeWorld, rpc: NodeRpc, o: Outcome)
    requires Fits(env.parse, rpc)
    ensures TableChange(env, rpc, w.mounts, StepRpc(env, w, rpc, o).0.mounts)
  {
    if rpc.pc.Mounting? {
      PlanTargets(env.parse, rpc.req);
    }
  }

  lemma StepKeepsClear(env: NodeEnv, w: NodeWorld, rpc: NodeRpc, o: Outcome)
    requires Fits(env.parse, rpc) && Clear(env, w, rpc)
    ensures var (w', rpc') := StepRpc(env, w, rpc, o);
            Clear(env, w', rpc')
  {
    if rpc.pc.Mounting? {
      PlanTargets(env.parse, rpc.req);
    }
  }

  lemma OthersStayClear(env: NodeEnv, s: NodeSystem, reqs: set<NodeRequest>, id: nat, o: Outcome, other: nat)
    requires Ready(env, s, reqs) && MountersAgree(env, reqs)
    requires id in s.rpcs && other in s.rpcs && other != id
    ensures Clear(env, StepRpc(env, s.w, s.rpcs[id], o).0, s.rpcs[other])
  {
    var rpc, bystander := s.rpcs[id], s.rpcs[other];
    StepChangesTable(env, s.w, rpc, o);
    if (bystander.pc.MakeDirectory? || bystander.pc.Mounting?) && rpc.pc.Mounting? {
      assert Mounter(env, rpc.req) && Mounter(env, bystander.req);
      HoldersDiffer(s, id, other);
    }
  }

  lemma ApplyKeepsReady(env: NodeEnv, s: NodeSystem, e: NodeEvent, reqs: set<NodeRequest>)
    requires Ready(env, s, reqs) && MountersAgree(env, reqs) && (e.Start? ==> e.req in reqs)
    ensures Ready(env, Apply(env, s, e), reqs)
  {
    ApplyKeepsLocksExact(env, s, e);
    if e.Step? && e.id in s.rpcs {
      StepFits(env, s.w, s.rpcs[e.id], e.o);
      StepKeepsClear(env, s.w, s.rpcs[e.id], e.o);
      forall other | other in s.rpcs && other != e.id
        ensures Clear(env, Apply(env, s, e).w, s.rpcs[other])
      {
        OthersStayClear(env, s, reqs, e.id, e.o, other);
      }
    }
  }

  lemma {:induction false} ReadyAlong(env: NodeEnv, s: NodeSystem, events: seq<NodeEvent>, reqs: set<NodeRequest>)
    requires Ready(env, s, reqs) && MountersAgree(env, reqs) && Draws(events, reqs)
    ensures Ready(env, Run(env, s, events), reqs)
    decreases events
  {
    if events != [] {
      ApplyKeepsReady(env, s, events[0], reqs);
      ReadyAlong(env, Apply(env, s, events[0]), events[1..], reqs);
    }
  }

  // No RPC is about to mount on a mounted path.
  ghost predicate NothingStacked(env: NodeEnv, s: NodeSystem) {
    forall id | id in s.rpcs && s.rpcs[id].pc.Mounting? :: env.clean(s.rpcs[id].pc.call.target) !in s.w.mounts
  }

  ghost predicate NeverStacks(env: NodeEnv, reqs: set<NodeRequest>) {
    forall s, events | Initial(s) && Draws(events, reqs) :: NothingStacked(env, Run(env, s, events))
  }

  lemma AgreementPreventsStacking(env: NodeEnv, reqs: set<NodeRequest>, s: NodeSystem, events: seq<NodeEvent>)
    requires MountersAgree(env, reqs) && Initial(s) && Draws(events, reqs)
    ensures NothingStacked(env, Run(env, s, events))
  {
    ReadyAlong(env, s, events, reqs);
    var s' := Run(env, s, events);
    forall id | id in s'.rpcs && s'.rpcs[id].pc.Mounting?
      ensures env.clean(s'.rpcs[id].pc.call.target) !in s'.w.mounts
    {
      assert Fits(env.parse, s'.rpcs[id]) && Clear(env, s'.w, s'.rpcs[id]);
      PlanTargets(env.parse, s'.rpcs[id].req);
    }
  }

  // An RPC that starts, takes its lock and checks its path is about to mount.
  lemma ComesToMount(env: NodeEnv, s: NodeSystem, id: nat, req: NodeRequest) returns (events: seq<NodeEvent>)
    requires Mounter(env, req) && id !in s.rpcs && LockKey(req) !in s.w.locks && Place(env, req) !in s.w.mounts
    ensures Draws(events, {req})
    ensures Run(env, s, events) ==
            NodeSystem(s.w.(locks := s.w.locks + {LockKey(req)}),
                       s.rpcs[id := NodeRpc(req, FirstCall(env.parse, req), [])])
  {
    events := [Start(id, req), Step(id, Succeeds), Step(id, Succeeds)];
    var s1 := Apply(env, s, events[0]);
    var s2 := Apply(env, s1, events[1]);
    var s3 := Apply(env, s2, events[2]);
    assert s2.rpcs[id].pc == CheckPath;
    assert events[1..] == [events[1], events[2]] && events[1..][1..] == [events[2]];
    assert Run(env, s2, [events[2]]) == s3;
    assert s3.rpcs == s.rpcs[id := s3.rpcs[id]];
  }

  lemma MountsNow(env: NodeEnv, s: NodeSystem, id: nat) returns (events: seq<NodeEvent>)
    requires id in s.rpcs && Fits(env.parse, s.rpcs[id]) && s.rpcs[id].pc.Mounting?
    requires Place(env, s.rpcs[id].req) !in s.w.mounts
    ensures Draws(events, {})
    ensures var s' := Run(env, s, events);
            && Place(env, s.rpcs[id].req) in s'.w.mounts
            && forall other | other in s.rpcs && other != id :: other in s'.rpcs && s'.rpcs[other] == s.rpcs[other]
  {
    events := [Step(id, Succeeds)];
    PlanTargets(env.parse, s.rpcs[id].req);
    assert events[1..] == [];
    assert Run(env, Apply(env, s, events[0]), []) == Apply(env, s, events[0]);
  }

  // Two requests for one place under different locks can both pass the check;
  // the second then mounts on top of the first.
  lemma DisagreementStacks(env: NodeEnv, a: NodeRequest, b: NodeRequest)
    returns (s: NodeSystem, events: seq<NodeEvent>)
    requires Mounter(env, a) && Mounter(env, b) && Place(env, a) == Place(env, b) && LockKey(a) != LockKey(b)
    ensures Initial(s) && Draws(events, {a, b}) && !NothingStacked(env, Run(env, s, events))
  {
    s := NodeSystem(NodeWorld(map[], {}), map[]);
    FirstCallFits(env.parse, a);
    FirstCallFits(env.parse, b);
    var one := ComesToMount(env, s, 0, a);
    var s1 := Run(env, s, one);
    var two := ComesToMount(env, s1, 1, b);
    var s2 := Run(env, s1, two);
    var three := MountsNow(env, s2, 0);
    var s3 := Run(env, s2, three);
    RunInTwo(env, s, one, two);
    RunInTwo(env, s, one + two, three);
    events := (one + two) + three;
    assert s3.rpcs[1].pc.Mounting?;
  }

  // In every run over a set of requests each mount call meets an unmounted path,
  // exactly when the requests that would mount at one place share a lock.
  // Failed publishes may clean up staging paths at any time.
  lemma NoStackedMounts(env: NodeEnv, reqs: set<NodeRequest>)
    ensures MountersAgree(env, reqs) <==> NeverStacks(env, reqs)
  {
    if MountersAgree(env, reqs) {
      forall s, events | Initial(s) && Draws(events, reqs) ensures NothingStacked(env, Run(env, s, events)) {
        AgreementPreventsStacking(env, reqs, s, events);
      }
    } else {
      var a, b :| a in reqs && b in reqs && Mounter(env, a) && Mounter(env, b)
                  && Place(env, a) == Place(env, b) && LockKey(a) != LockKey(b);
      var s, events := DisagreementStacks(env, a, b);
      assert Draws(events, reqs);
    }
  }

  // Cleaned paths, one volume for each staging path, and staging paths apart from
  // target paths are enough.
  lemma OrderlyPathsAgree(env: NodeEnv, reqs: set<NodeRequest>)
    requires forall req | req in reqs && Mounter(env, req) :: Place(env, req) == PathOf(req)
    requires forall a, b | a in reqs && b in reqs && a.StageRequest? && b.StageRequest? ::
               a.stagingPath == b.stagingPath ==> a.volumeID == b.volumeID
    requires forall a, b | a in reqs && b in reqs && a.StageRequest? && b.PublishRequest? ::
               a.stagingPath != b.targetPath
    ensures NeverStacks(env, reqs)
  {
    NoStackedMounts(env, reqs);
  }

  // The mount calls that are made

  lemma {:induction false} ShapeAlong(env: NodeEnv, s: NodeSystem, events: seq<NodeEvent>)
    requires LocksExact(s) && forall id | id in s.rpcs :: Fits(env.parse, s.rpcs[id])
    ensures var s' := Run(env, s, events);
            LocksExact(s') && forall id | id in s'.rpcs :: Fits(env.parse, s'.rpcs[id])
    decreases events
  {
    if events != [] {
      var e := events[0];
      ApplyKeepsLocksExact(env, s, e);
      if e.Step? && e.id in s.rpcs {
        StepFits(env, s.w, s.rpcs[e.id], e.o);
      }
      ShapeAlong(env, Apply(env, s, e), events[1..]);
    }
  }

  // In every run the locked keys are those of the RPCs between acquire and
  // release, each held by one RPC; none is left when all have returned.
  lemma NodeKeysAreHeldKeys(env: NodeEnv, s: NodeSystem, events: seq<NodeEvent>)
    requires Initial(s)
    ensures LocksExact(Run(env, s, events))
    ensures (forall id | id in Run(env, s, events).rpcs :: !InFlight(Run(env, s, events).rpcs[id])) ==>
              Run(env, s, events).w.locks == {}
  {
    ShapeAlong(env, s, events);
    var s' := Run(env, s, events);
    if forall id | id in s'.rpcs :: !InFlight(s'.rpcs[id]) {
      assert forall id :: !Holds(s', id);
      assert forall key :: key !in s'.w.locks;
      assert s'.w.locks == {};
    }
  }

  // The call stages the request's source with these options.
  predicate Stages(req: NodeRequest, source: string, options: seq<string>, call: MountCall)
    requires req.StageRequest?
  {
    call == MountCall(req.stagingPath, Mount(source, NFS_TYPE, options))
  }

  // In every run, the mount calls of a staging RPC use the rewritten flags, with
  // the mTLS option exactly if the mode requires it or if it is the first of
  // at most two optional attempts. The plain optional attempt is made only
  // after the one with mTLS has failed.
  lemma StagingFollowsMode(env: NodeEnv, s: NodeSystem, events: seq<NodeEvent>, id: nat)
    requires Initial(s) && id in Run(env, s, events).rpcs
    requires var rpc := Run(env, s, events).rpcs[id];
             rpc.req.StageRequest? && rpc.tried != []
    ensures var rpc := Run(env, s, events).rpcs[id];
            var (source, ips) := NodeTargets(env.parse, rpc.req.context);
            var plain := OptionsFor(Flags(rpc.req.capability), ips);
            var secure := plain + [MTLS_OPTION];
            var mode := LookUp(rpc.req.context, MTLS_MODE);
            && source != "" && mode in {"", MTLS_REQUIRED, MTLS_OPTIONAL, MTLS_DISABLED}
            && |rpc.tried| <= 2 && (|rpc.tried| == 2 ==> mode == MTLS_OPTIONAL && !rpc.tried[0].ok)
            && (forall i | 0 <= i < |rpc.tried| ::
                  Stages(rpc.req, source,
                         if mode == MTLS_REQUIRED || (mode == MTLS_OPTIONAL && i == 0) then secure else plain,
                         rpc.tried[i].call))
  {
    ShapeAlong(env, s, events);
    var rpc := Run(env, s, events).rpcs[id];
    assert Tried(env.parse, rpc);
  }

  // An RPC for a volume whose mode requires mTLS never makes a mount call without it.
  lemma RequiredMeansSecure(env: NodeEnv, s: NodeSystem, events: seq<NodeEvent>, id: nat)
    requires Initial(s) && id in Run(env, s, events).rpcs
    requires var req := Run(env, s, events).rpcs[id].req;
             req.StageRequest? && LookUp(req.context, MTLS_MODE) == MTLS_REQUIRED
    ensures forall attempt | attempt in Run(env, s, events).rpcs[id].tried :: MTLS_OPTION in attempt.call.mount.options
  {
    var rpc := Run(env, s, events).rpcs[id];
    if rpc.tried != [] {
      StagingFollowsMode(env, s, events, id);
      forall attempt | attempt in rpc.tried ensures MTLS_OPTION in attempt.call.mount.options {
        var i :| 0 <= i < |rpc.tried| && rpc.tried[i] == attempt;
        assert attempt.call.mount.options[|attempt.call.mount.options| - 1] == MTLS_OPTION;
      }
    }
  }

  // In every run, a publishing RPC makes at most one mount call: a bind mount of
  // its staging path on its target path, read-only if and only if the request or
  // its access mode asks for it or a flag says so.
  lemma PublishingBinds(env: NodeEnv, s: NodeSystem, events: seq<NodeEvent>, id: nat)
    requires Initial(s) && id in Run(env, s, events).rpcs
    requires var rpc := Run(env, s, events).rpcs[id];
             rpc.req.PublishRequest? && rpc.tried != []
    ensures var rpc := Run(env, s, events).rpcs[id];
            var call := rpc.tried[0].call;
            && |rpc.tried| == 1 && rpc.req.capability.Some?
            && call.target == rpc.req.targetPath && call.mount.source == rpc.req.stagingPath
            && [BIND_OPTION] + Flags(rpc.req.capability) <= call.mount.options
            && (READ_ONLY_OPTION in call.mount.options <==>
                  || rpc.req.isReadOnly || rpc.req.capability.value.readerOnly
                  || READ_ONLY_OPTION in Flags(rpc.req.capability))
  {
    ShapeAlong(env, s, events);
    var rpc := Run(env, s, events).rpcs[id];
    assert Tried(env.parse, rpc);
    OptionsOfPublish(rpc.req);
  }

  lemma OptionsOfPublish(req: NodeRequest)
    requires req.PublishRequest? && req.capability.Some?
    ensures var options := PublishOptions(req);
            && [BIND_OPTION] + Flags(req.capability) <= options
            && (READ_ONLY_OPTION in options <==>
                  req.isReadOnly || req.capability.value.readerOnly || READ_ONLY_OPTION in Flags(req.capability))
  {
    assert BIND_OPTION != READ_ONLY_OPTION by {
      assert |BIND_OPTION| == 4 && |READ_ONLY_OPTION| == 2;
    }
  }

  // A whole place under required mTLS

  // This request may mount the place, and would never do so without mTLS.
  predicate RequiresMTLS(req: NodeRequest) {
    req.StageRequest? && LookUp(req.context, MTLS_MODE) == MTLS_REQUIRED
  }

  predicate Secure(t: Table, place: string) {
    place in t ==> MTLS_OPTION in t[place].options
  }

  lemma StepKeepsSecure(env: NodeEnv, w: NodeWorld, rpc: NodeRpc, o: Outcome, place: string)
    requires Fits(env.parse, rpc) && Secure(w.mounts, place)
    requires Mounter(env, rpc.req) && Place(env, rpc.req) == place ==> RequiresMTLS(rpc.req)
    ensures Secure(StepRpc(env, w, rpc, o).0.mounts, place)
  {
    StepChangesTable(env, w, rpc, o);
    if rpc.pc.Mounting? && RequiresMTLS(rpc.req) {
      var options := rpc.pc.call.mount.options;
      assert rpc.pc.call == Plan(env.parse, rpc.req)[0];
      assert options[|options| - 1] == MTLS_OPTION;
    }
  }

  lemma {:induction false} SecureAlong(env: NodeEnv, s: NodeSystem, events: seq<NodeEvent>, reqs: set<NodeRequest>,
                                       place: string)
    requires forall id | id in s.rpcs :: Fits(env.parse, s.rpcs[id]) && s.rpcs[id].req in reqs
    requires forall req | req in reqs && Mounter(env, req) && Place(env, req) == place :: RequiresMTLS(req)
    requires Secure(s.w.mounts, place) && Draws(events, reqs)
    ensures Secure(Run(env, s, events).w.mounts, place)
    decreases events
  {
    if events != [] {
      var e := events[0];
      if e.Step? && e.id in s.rpcs {
        StepFits(env, s.w, s.rpcs[e.id], e.o);
        StepKeepsSecure(env, s.w, s.rpcs[e.id], e.o, place);
      }
      SecureAlong(env, Apply(env, s, e), events[1..], reqs, place);
    }
  }

  // A place that starts unmounted, and that only volumes in required mode are
  // staged to, is in every run either unmounted or mounted with mTLS; so that a
  // staging that finds it mounted returns success for a mount with mTLS, too.
  lemma RequiredPlacesAreSecure(env: NodeEnv, s: NodeSystem, events: seq<NodeEvent>, reqs: set<NodeRequest>,
                                place: string)
    requires Initial(s) && place !in s.w.mounts && Draws(events, reqs)
    requires forall req | req in reqs && Mounter(env, req) && Place(env, req) == place :: RequiresMTLS(req)
    ensures Secure(Run(env, s, events).w.mounts, place)
  {
    SecureAlong(env, s, events, reqs, place);
  }
}
