// What one node RPC answers when nothing disturbs it, for every request, every
// state and every outcome on the host, by the fields of all three; and where the
// answers come from in runs.
module NodeAnswers {
  import opened Wrappers
  import opened Text
  import opened MountTargets
  import opened MountTable
  import opened StageOptions
  import opened Status
  import opened NodeSteps
  import opened NodeSafety
  import opened NodeSuccess

  ghost function Call(env: NodeEnv, w: NodeWorld, req: NodeRequest, os: seq<Outcome>, steps: nat): (NodeWorld, NodePc) {
    var (w', rpc') := Alone(env, w, NodeRpc(req, Begin, []), os, steps);
    (w', rpc'.pc)
  }

  // The mount options

  // Each option is kept, with its tokens remoteports=dns replaced by the
  // addresses, if there are any.
  ghost predicate Rewritten(option: string, ips: seq<string>, result: string) {
    if ips == [] then result == option
    else
      exists tokens: seq<string> ::
        && |tokens| == |Split(option, ',')|
        && (forall j | 0 <= j < |tokens| ::
              tokens[j] == if Split(option, ',')[j] == "remoteports=dns" then "remoteports=" + Join(ips, "~")
                           else Split(option, ',')[j])
        && result == Join(tokens, ",")
  }

  ghost predicate StagingOptions(flags: seq<string>, ips: seq<string>, options: seq<string>) {
    var base := if flags == [] then ["vers=4.1", "proto=tcp6"] else flags;
    |options| == |base| && forall i | 0 <= i < |base| :: Rewritten(base[i], ips, options[i])
  }

  lemma OptionsAreRewritten(flags: seq<string>, ips: seq<string>)
    ensures StagingOptions(flags, ips, OptionsFor(flags, ips))
  {
    hide Split, Join;
    var base := if flags == [] then ["vers=4.1", "proto=tcp6"] else flags;
    if ips != [] {
      forall i | 0 <= i < |base| ensures Rewritten(base[i], ips, OptionsFor(flags, ips)[i]) {
        var tokens := RewriteTokens(ips, Split(base[i], ','));
        assert OptionsFor(flags, ips)[i] == Join(tokens, ",");
      }
    }
  }

  // A staging mount of what the context names, with mTLS or without
  ghost predicate StagingMount(parse: AddressParser, req: NodeRequest, secure: bool, mount: Mount)
    requires req.StageRequest?
  {
    var (source, ips) := NodeTargets(parse, req.context);
    && mount.source == source && mount.fstype == "nfs"
    && exists options ::
         && StagingOptions(Flags(req.capability), ips, options)
         && mount.options == options + if secure then ["xprtsec=mtls"] else []
  }

  lemma StageCallIsStaging(parse: AddressParser, req: NodeRequest, secure: bool)
    requires req.StageRequest?
    ensures var (source, ips) := NodeTargets(parse, req.context);
            var options := OptionsFor(Flags(req.capability), ips);
            StagingMount(parse, req, secure,
                         StageCall(req, source, if secure then options + [MTLS_OPTION] else options).mount)
  {
    hide NodeTargets, OptionsFor, StagingOptions;
    var (source, ips) := NodeTargets(parse, req.context);
    var options := OptionsFor(Flags(req.capability), ips);
    OptionsAreRewritten(Flags(req.capability), ips);
    assert options + [] == options;
  }

  // In every run, the mount calls of a staging RPC mount what the context names,
  // with the rewritten flags or defaults, and with mTLS as the mode says.
  lemma StagingCallsAreStaging(env: NodeEnv, s: NodeSystem, events: seq<NodeEvent>, id: nat)
    requires Initial(s) && id in Run(env, s, events).rpcs && Run(env, s, events).rpcs[id].req.StageRequest?
    ensures var rpc := Run(env, s, events).rpcs[id];
            forall i | 0 <= i < |rpc.tried| ::
              && rpc.tried[i].call.target == rpc.req.stagingPath
              && StagingMount(env.parse, rpc.req, Secures(LookUp(rpc.req.context, MTLS_MODE), i),
                              rpc.tried[i].call.mount)
  {
    hide NodeTargets, OptionsFor, StagingMount;
    var rpc := Run(env, s, events).rpcs[id];
    if rpc.tried != [] {
      StagingFollowsMode(env, s, events, id);
      forall i | 0 <= i < |rpc.tried|
        ensures rpc.tried[i].call.target == rpc.req.stagingPath
        ensures StagingMount(env.parse, rpc.req, Secures(LookUp(rpc.req.context, MTLS_MODE), i),
                             rpc.tried[i].call.mount)
      {
        StageCallIsStaging(env.parse, rpc.req, Secures(LookUp(rpc.req.context, MTLS_MODE), i));
      }
    }
  }

  // The attempts that use mTLS
  predicate Secures(mode: string, i: nat) {
    mode == "required" || (mode == "optional" && i == 0)
  }

  // Acceptable requests

  predicate GoodStage(parse: AddressParser, req: NodeRequest)
    requires req.StageRequest?
  {
    && req.volumeID != "" && req.stagingPath != ""
    && (match req.capability case None => false case Some(capability) => capability.mountFlags.Some?)
    && NodeTargets(parse, req.context).0 != ""
    && (MTLS_MODE in req.context ==> req.context[MTLS_MODE] in ["", "required", "optional", "disabled"])
  }

  predicate Good(parse: AddressParser, req: NodeRequest) {
    match req
    case StageRequest(_, _, _, _) => GoodStage(parse, req)
    case UnstageRequest(volumeID, stagingPath) => volumeID != "" && stagingPath != ""
    case PublishRequest(volumeID, stagingPath, targetPath, capability, _) =>
      volumeID != "" && stagingPath != "" && targetPath != "" && capability.Some?
    case UnpublishRequest(volumeID, targetPath) => volumeID != "" && targetPath != ""
  }

  lemma GoodIsAcceptable(parse: AddressParser, req: NodeRequest)
    ensures Acceptable(parse, req) <==> Good(parse, req)
  {
  }

  // The key: the volume for staging, the target path for publishing
  function KeyOf(req: NodeRequest): string {
    match req
    case StageRequest(volumeID, _, _, _) => volumeID
    case UnstageRequest(volumeID, _) => volumeID
    case PublishRequest(_, _, targetPath, _, _) => targetPath
    case UnpublishRequest(_, targetPath) => targetPath
  }

  // The first step: a bad request is refused, a taken key aborts, and otherwise
  // the key is taken.
  lemma FirstStepAnswers(env: NodeEnv, w: NodeWorld, req: NodeRequest, o: Outcome)
    ensures var (w', rpc') := StepRpc(env, w, NodeRpc(req, Begin, []), o);
            && (rpc'.pc == Returned(Error(InvalidArgument)) <==> !Good(env.parse, req))
            && (rpc'.pc == Returned(Error(Aborted)) <==> Good(env.parse, req) && KeyOf(req) in w.locks)
            && (rpc'.pc.Returned? ==> w' == w)
            && (Good(env.parse, req) && KeyOf(req) !in w.locks ==>
                  !rpc'.pc.Returned? && w' == w.(locks := w.locks + {KeyOf(req)}))
  {
    hide NodeTargets;
    GoodIsAcceptable(env.parse, req);
  }

  // Whole calls

  lemma OneStep(env: NodeEnv, w: NodeWorld, rpc: NodeRpc, os: seq<Outcome>, steps: nat)
    requires steps > 0 && !rpc.pc.Returned?
    ensures var (w', rpc') := StepRpc(env, w, rpc, Next(os));
            Alone(env, w, rpc, os, steps) == Alone(env, w', rpc', Later(os), steps - 1)
  {
  }

  lemma Stops(env: NodeEnv, w: NodeWorld, rpc: NodeRpc, os: seq<Outcome>, steps: nat)
    requires rpc.pc.Returned?
    ensures Alone(env, w, rpc, os, steps) == (w, rpc)
  {
  }

  // A request that does not get to its key
  lemma RefusedAnswer(env: NodeEnv, w: NodeWorld, req: NodeRequest, os: seq<Outcome>, steps: nat)
    requires steps >= MAX_STEPS && (!Good(env.parse, req) || KeyOf(req) in w.locks)
    ensures Call(env, w, req, os, steps) ==
            (w, Returned(Error(if !Good(env.parse, req) then InvalidArgument else Aborted)))
  {
    hide NodeTargets, Alone, Good;
    var rpc := NodeRpc(req, Begin, []);
    FirstStepAnswers(env, w, req, Next(os));
    OneStep(env, w, rpc, os, steps);
    var (w', rpc') := StepRpc(env, w, rpc, Next(os));
    assert rpc'.pc.Returned? by {
      GoodIsAcceptable(env.parse, req);
    }
    Stops(env, w', rpc', Later(os), steps - 1);
  }

  // From the release on
  lemma UnlockEnds(env: NodeEnv, w: NodeWorld, rpc: NodeRpc, os: seq<Outcome>, steps: nat)
    requires rpc.pc.Unlock? && steps >= 1
    ensures var (w', rpc') := Alone(env, w, rpc, os, steps);
            w' == w.(locks := w.locks - {LockKey(rpc.req)}) && rpc'.pc == Returned(rpc.pc.response)
  {
    hide Alone;
    OneStep(env, w, rpc, os, steps);
    Stops(env, w.(locks := w.locks - {LockKey(rpc.req)}), rpc.(pc := Returned(rpc.pc.response)), Later(os), steps - 1);
  }

  // Under its lock, an RPC ends with this table and this answer.
  ghost predicate EndsWith(env: NodeEnv, w: NodeWorld, rpc: NodeRpc, os: seq<Outcome>, steps: nat, mounts: Table,
                           response: NodeResponse) {
    var (w', rpc') := Alone(env, w, rpc, os, steps);
    w' == NodeWorld(mounts, w.locks - {LockKey(rpc.req)}) && rpc'.pc == Returned(response)
  }

  lemma CallEnds(env: NodeEnv, w: NodeWorld, req: NodeRequest, os: seq<Outcome>, steps: nat, mounts: Table,
                 response: NodeResponse)
    requires Good(env.parse, req) && KeyOf(req) !in w.locks && steps >= 1
    requires EndsWith(env, w.(locks := w.locks + {KeyOf(req)}),
                      NodeRpc(req, if Mounts(req) then CheckPath else CleanUp, []), Later(os), steps - 1, mounts,
                      response)
    ensures Call(env, w, req, os, steps) == (w.(mounts := mounts), Returned(response))
  {
    hide NodeTargets, Alone;
    GoodIsAcceptable(env.parse, req);
    OneStep(env, w, NodeRpc(req, Begin, []), os, steps);
    assert w.locks + {KeyOf(req)} - {LockKey(req)} == w.locks;
  }

  // Unstaging and unpublishing

  // An unstage or unpublish that gets its key: unless it fails at once, its place
  // is unmounted; it is a success if the directory is removed, too.
  lemma CleanUpAnswer(env: NodeEnv, w: NodeWorld, req: NodeRequest, os: seq<Outcome>, steps: nat)
    requires steps >= MAX_STEPS && Good(env.parse, req) && KeyOf(req) !in w.locks
    requires req.UnstageRequest? || req.UnpublishRequest?
    ensures var path := if req.UnstageRequest? then req.stagingPath else req.targetPath;
            var o := Next(Later(os));
            Call(env, w, req, os, steps) ==
            (if o.Fails? then w else w.(mounts := w.mounts - {env.clean(path)}),
             Returned(if o.Fails? || o.Leftover? then Error(Internal) else Done))
  {
    hide Alone;
    var o, w1 := Next(Later(os)), w.(locks := w.locks + {KeyOf(req)});
    var (mounts, ok) := PerformCleanup(env.clean, w.mounts, PathOf(req), o);
    var rpc := NodeRpc(req, CleanUp, []);
    OneStep(env, w1, rpc, Later(os), steps - 1);
    UnlockEnds(env, w1.(mounts := mounts), rpc.(pc := Unlock(if ok then Done else Error(Internal))),
               Later(Later(os)), steps - 2);
    CallEnds(env, w, req, os, steps, mounts, if ok then Done else Error(Internal));
  }

  // Staging and publishing

  // The check of the path, before anything is mounted: Some answer, or None to go on.
  function Ensured(mounted: bool, check: Outcome, mkdir: Outcome): Option<NodeResponse> {
    if check.Fails? || check.Leftover? then Some(Error(Internal))
    else if mounted then Some(Done)
    else if check.Missing? && !mkdir.Succeeds? then Some(Error(Internal))
    else None
  }

  // The outcomes of the mount calls: one less if the directory had to be made.
  function MountOutcomes(os: seq<Outcome>): seq<Outcome> {
    if Next(Later(os)).Missing? then Later(Later(Later(os))) else Later(Later(os))
  }

  lemma EnsuresPath(env: NodeEnv, w: NodeWorld, req: NodeRequest, os: seq<Outcome>, steps: nat)
    requires Good(env.parse, req) && Mounts(req) && Acceptable(env.parse, req) && steps >= 7
    ensures var rpc, mounted := NodeRpc(req, CheckPath, []), env.clean(PathOf(req)) in w.mounts;
            match Ensured(mounted, Next(os), Next(Later(os)))
            case Some(response) => EndsWith(env, w, rpc, os, steps, w.mounts, response)
            case None =>
              var left := if Next(os).Missing? then steps - 2 else steps - 1;
              var rest := if Next(os).Missing? then Later(Later(os)) else Later(os);
              Alone(env, w, rpc, os, steps) ==
              Alone(env, w, NodeRpc(req, FirstCall(env.parse, req), []), rest, left)
  {
    hide Alone, NodeTargets, OptionsFor, FirstCall, Good;
    var rpc, mounted := NodeRpc(req, CheckPath, []), env.clean(PathOf(req)) in w.mounts;
    var made := rpc.(pc := MakeDirectory);
    OneStep(env, w, rpc, os, steps);
    if Next(os).Missing? && !mounted {
      OneStep(env, w, made, Later(os), steps - 1);
      if !Next(Later(os)).Succeeds? {
        UnlockEnds(env, w, rpc.(pc := Unlock(Error(Internal))), Later(Later(os)), steps - 2);
      }
    } else if mounted || Next(os).Fails? || Next(os).Leftover? {
      UnlockEnds(env, w, StepRpc(env, w, rpc, Next(os)).1, Later(os), steps - 1);
    }
  }

  // One mount call on an unmounted place
  lemma MountSteps(env: NodeEnv, w: NodeWorld, rpc: NodeRpc, os: seq<Outcome>, steps: nat)
    requires rpc.pc.Mounting? && rpc.pc.call.target != "" && env.clean(rpc.pc.call.target) !in w.mounts && steps >= 2
    ensures var call, ok := rpc.pc.call, Next(os).Succeeds?;
            var next := NodeRpc(rpc.req, AfterMount(rpc.req, rpc.pc.fallback, ok), rpc.tried + [Attempt(call, ok)]);
            if ok then EndsWith(env, w, rpc, os, steps, w.mounts[env.clean(call.target) := call.mount], Done)
            else Alone(env, w, rpc, os, steps) == Alone(env, w, next, Later(os), steps - 1)
  {
    hide Alone;
    var call, ok := rpc.pc.call, Next(os).Succeeds?;
    var next := NodeRpc(rpc.req, AfterMount(rpc.req, rpc.pc.fallback, ok), rpc.tried + [Attempt(call, ok)]);
    OneStep(env, w, rpc, os, steps);
    if ok {
      UnlockEnds(env, w.(mounts := w.mounts[env.clean(call.target) := call.mount]), next, Later(os), steps - 1);
    }
  }

  // A mount call that meets a mounted place, as it may beside other RPCs: it
  // changes nothing, and succeeds only if the same mount is there.
  lemma MountedAlready(env: NodeEnv, w: NodeWorld, rpc: NodeRpc, o: Outcome)
    requires rpc.pc.Mounting? && env.clean(rpc.pc.call.target) in w.mounts
    ensures var (w', rpc') := StepRpc(env, w, rpc, o);
            var same := rpc.pc.call.target != "" && o.Succeeds?
                        && w.mounts[env.clean(rpc.pc.call.target)] == rpc.pc.call.mount;
            && w' == w && rpc'.tried == rpc.tried + [Attempt(rpc.pc.call, same)]
            && (rpc'.pc == Unlock(Done) <==> same)
  {
  }

  // The place is mounted like this; all else is as before.
  ghost predicate MountsAt(w: NodeWorld, w': NodeWorld, place: string, mount: Mount) {
    w' == w.(mounts := w.mounts[place := mount])
  }

  // A stage that gets its key. A mounted place stays as it is; an unmounted one is
  // mounted by the mode, after its directory has been made if need be.
  lemma StageAnswer(env: NodeEnv, w: NodeWorld, req: NodeRequest, os: seq<Outcome>, steps: nat)
    requires steps >= MAX_STEPS && req.StageRequest? && Good(env.parse, req) && KeyOf(req) !in w.locks
    ensures var (w', pc') := Call(env, w, req, os, steps);
            var place, mode, outcomes := env.clean(req.stagingPath), LookUp(req.context, MTLS_MODE), MountOutcomes(os);
            match Ensured(place in w.mounts, Next(Later(os)), Next(Later(Later(os))))
            case Some(response) => (w', pc') == (w, Returned(response))
            case None =>
              if Next(outcomes).Succeeds? then
                pc' == Returned(Done) &&
                exists mount :: StagingMount(env.parse, req, Secures(mode, 0), mount) && MountsAt(w, w', place, mount)
              else if mode == "optional" && Next(Later(outcomes)).Succeeds? then
                pc' == Returned(Done) &&
                exists mount :: StagingMount(env.parse, req, false, mount) && MountsAt(w, w', place, mount)
              else (w', pc') == (w, Returned(Error(Internal)))
  {
    hide Alone, NodeTargets, OptionsFor, Good, StagingMount;
    GoodIsAcceptable(env.parse, req);
    var place, mode, outcomes := env.clean(req.stagingPath), LookUp(req.context, MTLS_MODE), MountOutcomes(os);
    var w1, rpc := w.(locks := w.locks + {KeyOf(req)}), NodeRpc(req, CheckPath, []);
    EnsuresPath(env, w1, req, Later(os), steps - 1);
    match Ensured(place in w.mounts, Next(Later(os)), Next(Later(Later(os))))
    case Some(response) => CallEnds(env, w, req, os, steps, w.mounts, response);
    case None =>
      var left := if Next(Later(os)).Missing? then steps - 3 else steps - 2;
      var mounts, response := StageEnds(env, w1, req, outcomes, left);
      CallEnds(env, w, req, os, steps, mounts, response);
  }

  lemma StageEnds(env: NodeEnv, w: NodeWorld, req: NodeRequest, os: seq<Outcome>, steps: nat)
    returns (mounts: Table, response: NodeResponse)
    requires req.StageRequest? && Acceptable(env.parse, req) && env.clean(req.stagingPath) !in w.mounts && steps >= 5
    ensures EndsWith(env, w, NodeRpc(req, FirstCall(env.parse, req), []), os, steps, mounts, response)
    ensures var place, mode := env.clean(req.stagingPath), LookUp(req.context, MTLS_MODE);
            if Next(os).Succeeds? then
              response == Done &&
              exists mount ::
                StagingMount(env.parse, req, Secures(mode, 0), mount) && mounts == w.mounts[place := mount]
            else if mode == "optional" && Next(Later(os)).Succeeds? then
              response == Done &&
              exists mount :: StagingMount(env.parse, req, false, mount) && mounts == w.mounts[place := mount]
            else mounts == w.mounts && response == Error(Internal)
  {
    hide Alone, NodeTargets, OptionsFor, StagingMount;
    var place, mode := env.clean(req.stagingPath), LookUp(req.context, MTLS_MODE);
    var first := NodeRpc(req, FirstCall(env.parse, req), []);
    StageCallIsStaging(env.parse, req, Secures(mode, 0));
    StageCallIsStaging(env.parse, req, false);
    MountSteps(env, w, first, os, steps);
    if Next(os).Succeeds? {
      mounts, response := w.mounts[place := first.pc.call.mount], Done;
    } else {
      var failed := [Attempt(first.pc.call, false)];
      assert [] + failed == failed;
      if mode == "optional" {
        var second := NodeRpc(req, Mounting(first.pc.fallback.value, None), failed);
        MountSteps(env, w, second, Later(os), steps - 1);
        if Next(Later(os)).Succeeds? {
          mounts, response := w.mounts[place := second.pc.call.mount], Done;
        } else {
          mounts, response := w.mounts, Error(Internal);
          UnlockEnds(env, w, NodeRpc(req, Unlock(Error(Internal)), failed + [Attempt(second.pc.call, false)]),
                     Later(Later(os)), steps - 2);
        }
      } else {
        mounts, response := w.mounts, Error(Internal);
        UnlockEnds(env, w, NodeRpc(req, Unlock(Error(Internal)), failed), Later(os), steps - 1);
      }
    }
  }

  // A publish that gets its key. If its bind mount fails, it unmounts the staging path.
  lemma PublishAnswer(env: NodeEnv, w: NodeWorld, req: NodeRequest, os: seq<Outcome>, steps: nat)
    requires steps >= MAX_STEPS && req.PublishRequest? && Good(env.parse, req) && KeyOf(req) !in w.locks
    ensures var outcomes, capability := MountOutcomes(os), req.capability.value;
            var readOnly := if req.isReadOnly || capability.readerOnly then ["ro"] else [];
            var flags := match capability.mountFlags case None => [] case Some(given) => given;
            Call(env, w, req, os, steps) ==
            match Ensured(env.clean(req.targetPath) in w.mounts, Next(Later(os)), Next(Later(Later(os))))
            case Some(response) => (w, Returned(response))
            case None =>
              if Next(outcomes).Succeeds? then
                (w.(mounts := w.mounts[env.clean(req.targetPath) :=
                                         Mount(req.stagingPath, "nfs", ["bind"] + flags + readOnly)]),
                 Returned(Done))
              else
                (if Next(Later(outcomes)).Fails? then w
                 else w.(mounts := w.mounts - {env.clean(req.stagingPath)}),
                 Returned(Error(Internal)))
  {
    hide Alone, NodeTargets, OptionsFor;
    GoodIsAcceptable(env.parse, req);
    var outcomes := MountOutcomes(os);
    var w1 := w.(locks := w.locks + {KeyOf(req)});
    EnsuresPath(env, w1, req, Later(os), steps - 1);
    match Ensured(env.clean(req.targetPath) in w.mounts, Next(Later(os)), Next(Later(Later(os))))
    case Some(response) => CallEnds(env, w, req, os, steps, w.mounts, response);
    case None =>
      var left := if Next(Later(os)).Missing? then steps - 3 else steps - 2;
      var first := NodeRpc(req, FirstCall(env.parse, req), []);
      MountSteps(env, w1, first, outcomes, left);
      if Next(outcomes).Succeeds? {
        CallEnds(env, w, req, os, steps, w.mounts[env.clean(req.targetPath) := PublishCall(req).mount], Done);
      } else {
        var tried := [Attempt(PublishCall(req), false)];
        assert [] + tried == tried;
        var second := NodeRpc(req, CleanUpStaging, tried);
        var mounts := PerformCleanup(env.clean, w.mounts, req.stagingPath, Next(Later(outcomes))).0;
        OneStep(env, w1, second, Later(outcomes), left - 1);
        UnlockEnds(env, w1.(mounts := mounts), NodeRpc(req, Unlock(Error(Internal)), tried), Later(Later(outcomes)),
                   left - 2);
        CallEnds(env, w, req, os, steps, mounts, Error(Internal));
      }
  }

  // Runs

  ghost function At(env: NodeEnv, s: NodeSystem, events: seq<NodeEvent>, k: nat): NodeSystem
    requires k <= |events|
  {
    Run(env, s, events[..k])
  }

  // The k-th event is the step by which this RPC returns.
  ghost predicate ReturnsAt(env: NodeEnv, s: NodeSystem, events: seq<NodeEvent>, id: nat, rpc: NodeRpc, k: nat) {
    && k < |events| && events[k].Step? && events[k].id == id
    && var s' := At(env, s, events, k);
       && id in s'.rpcs && s'.rpcs[id].req == rpc.req && !s'.rpcs[id].pc.Returned?
       && StepRpc(env, s'.w, s'.rpcs[id], events[k].o).1.pc == rpc.pc
  }

  lemma NextState(env: NodeEnv, s: NodeSystem, events: seq<NodeEvent>, k: nat)
    requires k < |events|
    ensures At(env, s, events, k + 1) == Apply(env, At(env, s, events, k), events[k])
  {
    hide Run, StepRpc;
    assert events[..k + 1] == events[..k] + [events[k]];
    RunInTwo(env, s, events[..k], [events[k]]);
    RunOne(env, At(env, s, events, k), events[k]);
  }

  lemma {:induction false} ReturnedByStep(env: NodeEnv, s: NodeSystem, events: seq<NodeEvent>, id: nat, n: nat)
    returns (k: nat)
    requires s.rpcs == map[] && n <= |events|
    requires id in At(env, s, events, n).rpcs && At(env, s, events, n).rpcs[id].pc.Returned?
    ensures k < n && ReturnsAt(env, s, events, id, At(env, s, events, n).rpcs[id], k)
    decreases n
  {
    hide StepRpc;
    if n == 0 {
      assert false;
    } else {
      NextState(env, s, events, n - 1);
      var before := At(env, s, events, n - 1);
      if id in before.rpcs && before.rpcs[id].pc.Returned? {
        k := ReturnedByStep(env, s, events, id, n - 1);
        ReturnedStays(env, before, events[n - 1], id);
      } else {
        k := n - 1;
        RequestStays(env, before.w, before.rpcs[id], events[n - 1].o);
      }
    }
  }

  lemma ReturnedStays(env: NodeEnv, s: NodeSystem, e: NodeEvent, id: nat)
    requires id in s.rpcs && s.rpcs[id].pc.Returned?
    ensures id in Apply(env, s, e).rpcs && Apply(env, s, e).rpcs[id] == s.rpcs[id]
  {
  }

  lemma RequestStays(env: NodeEnv, w: NodeWorld, rpc: NodeRpc, o: Outcome)
    ensures StepRpc(env, w, rpc, o).1.req == rpc.req
  {
  }

  // In every run, success comes only from the release of a lock, and Aborted only
  // from a first step that finds its key held by another RPC.
  lemma NodeAnswersComeFromSteps(env: NodeEnv, s: NodeSystem, events: seq<NodeEvent>, id: nat) returns (k: nat)
    requires Initial(s) && id in Run(env, s, events).rpcs && Run(env, s, events).rpcs[id].pc.Returned?
    ensures var rpc := Run(env, s, events).rpcs[id];
            && ReturnsAt(env, s, events, id, rpc, k)
            && var s' := At(env, s, events, k);
               && (rpc.pc.response == Done ==> s'.rpcs[id].pc == Unlock(Done))
               && (rpc.pc.response == Error(Aborted) ==>
                     s'.rpcs[id].pc == Begin &&
                     exists other :: other != id && Holds(s', other) && KeyOf(s'.rpcs[other].req) == KeyOf(rpc.req))
  {
    hide StepRpc, Run;
    assert events[..|events|] == events;
    k := ReturnedByStep(env, s, events, id, |events|);
    var s', rpc := At(env, s, events, k), Run(env, s, events).rpcs[id];
    AnsweredByStep(env, s'.w, s'.rpcs[id], events[k].o);
    BeginsFresh(env, s, events[..k], id);
    NodeKeysAreHeldKeys(env, s, events[..k]);
    if rpc.pc.response == Error(Aborted) {
      FirstStepAnswers(env, s'.w, rpc.req, events[k].o);
      assert KeyOf(rpc.req) == LockKey(rpc.req);
      var other :| Holds(s', other) && LockKey(s'.rpcs[other].req) == LockKey(rpc.req);
      assert KeyOf(s'.rpcs[other].req) == LockKey(s'.rpcs[other].req);
    }
  }

  lemma BeginsFresh(env: NodeEnv, s: NodeSystem, events: seq<NodeEvent>, id: nat)
    requires Initial(s) && id in Run(env, s, events).rpcs
    ensures Fits(env.parse, Run(env, s, events).rpcs[id])
    ensures NeverAborts(Run(env, s, events).rpcs[id])
    ensures Run(env, s, events).rpcs[id].pc.Begin? ==> Run(env, s, events).rpcs[id].tried == []
  {
    ShapeAlong(env, s, events);
    NoAbortedRelease(env, s, events);
  }

  // No release answers Aborted.
  predicate NeverAborts(rpc: NodeRpc) {
    rpc.pc != Unlock(Error(Aborted))
  }

  lemma StepNeverAborts(env: NodeEnv, w: NodeWorld, rpc: NodeRpc, o: Outcome)
    requires NeverAborts(rpc)
    ensures NeverAborts(StepRpc(env, w, rpc, o).1)
  {
    hide NodeTargets, OptionsFor;
  }

  lemma {:induction false} NoAbortedRelease(env: NodeEnv, s: NodeSystem, events: seq<NodeEvent>)
    requires forall id | id in s.rpcs :: NeverAborts(s.rpcs[id])
    ensures forall id | id in Run(env, s, events).rpcs :: NeverAborts(Run(env, s, events).rpcs[id])
    decreases events
  {
    hide StepRpc;
    if events != [] {
      var e := events[0];
      if e.Step? && e.id in s.rpcs {
        StepNeverAborts(env, s.w, s.rpcs[e.id], e.o);
      } else {
        assert e.Start? ==> NeverAborts(NodeRpc(e.req, Begin, []));
      }
      NoAbortedRelease(env, Apply(env, s, events[0]), events[1..]);
    }
  }

  lemma AnsweredByStep(env: NodeEnv, w: NodeWorld, rpc: NodeRpc, o: Outcome)
    requires !rpc.pc.Returned? && StepRpc(env, w, rpc, o).1.pc.Returned?
    ensures var response := StepRpc(env, w, rpc, o).1.pc.response;
            if rpc.pc.Begin? then response.Error? else rpc.pc == Unlock(response)
  {
  }

  // What an answered success said about its place was true when it was given.
  lemma AnsweredSuccessWasTrue(env: NodeEnv, s: NodeSystem, events: seq<NodeEvent>, reqs: set<NodeRequest>,
                               place: string, id: nat)
    requires Initial(s) && Draws(events, reqs) && ShareLocks(env, reqs, place)
    requires id in Run(env, s, events).rpcs
    requires var rpc := Run(env, s, events).rpcs[id];
             rpc.pc == Returned(Done) && Place(env, rpc.req) == place
    ensures exists k: nat ::
              && ReturnsAt(env, s, events, id, Run(env, s, events).rpcs[id], k)
              && (place in At(env, s, events, k).w.mounts <==> Mounts(Run(env, s, events).rpcs[id].req))
  {
    hide StepRpc, Run;
    var k := NodeAnswersComeFromSteps(env, s, events, id);
    assert Draws(events[..k], reqs);
    SharedLocksKeepTruth(env, s, events[..k], reqs, place);
    assert Truthful(env, At(env, s, events, k).w, At(env, s, events, k).rpcs[id], place);
  }
}
