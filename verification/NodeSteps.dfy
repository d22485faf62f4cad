// The node RPCs as step machines over the mount table and the lock set. A step
// performs at most one operation on the host, which may fail.
module NodeSteps {
  import opened Wrappers
  import opened MountTargets
  import opened MountTable
  import opened StageOptions
  import opened Status

  const BIND_OPTION := "bind"
  const READ_ONLY_OPTION := "ro"
  const NFS_TYPE := "nfs"
  const MTLS_OPTION := "xprtsec=mtls"

  const MTLS_REQUIRED := "required"
  const MTLS_OPTIONAL := "optional"
  const MTLS_DISABLED := "disabled"

  // Requests

  // A block capability has no mount flags; readerOnly stands for the two
  // reader-only access modes.
  datatype Capability = Capability(mountFlags: Option<seq<string>>, readerOnly: bool)

  datatype NodeRequest =
    | StageRequest(volumeID: string, stagingPath: string, capability: Option<Capability>, context: map<string, string>)
    | UnstageRequest(volumeID: string, stagingPath: string)
    | PublishRequest(volumeID: string, stagingPath: string, targetPath: string,
                     capability: Option<Capability>, isReadOnly: bool)
    | UnpublishRequest(volumeID: string, targetPath: string)

  datatype NodeResponse = Error(code: Code) | Done

  // The host

  // What becomes of one operation on the host. Missing: the path does not
  // exist. Leftover: the path was unmounted but its directory not removed.
  datatype Outcome = Succeeds | Fails | Missing | Leftover

  datatype MountCall = MountCall(target: string, mount: Mount)

  // filepath.Clean and netip.ParseAddr are parameters.
  datatype NodeEnv = NodeEnv(clean: string -> string, parse: AddressParser)

  datatype NodeWorld = NodeWorld(mounts: Table, locks: set<string>)

  function PerformMount(clean: string -> string, mounts: Table, call: MountCall, o: Outcome): (Table, bool) {
    if call.target == "" || !o.Succeeds? then (mounts, false) else Put(mounts, clean(call.target), call.mount)
  }

  // CleanupMountPoint: unmount and remove the directory
  function PerformCleanup(clean: string -> string, mounts: Table, path: string, o: Outcome): (Table, bool) {
    if path == "" || o.Fails? then (mounts, false) else (mounts - {clean(path)}, !o.Leftover?)
  }

  datatype PathCheck = Mounted | NotMounted | NoSuchPath | CheckFailed

  // IsLikelyNotMountPoint
  function PerformCheck(clean: string -> string, mounts: Table, path: string, o: Outcome): PathCheck {
    if path == "" then NoSuchPath
    else if o.Fails? || o.Leftover? then CheckFailed
    else if clean(path) in mounts then Mounted
    else if o.Missing? then NoSuchPath
    else NotMounted
  }

  // The mount calls of a request

  function Flags(capability: Option<Capability>): seq<string> {
    if capability.Some? && capability.value.mountFlags.Some? then capability.value.mountFlags.value else []
  }

  function StageCall(req: NodeRequest, source: string, options: seq<string>): MountCall
    requires req.StageRequest?
  {
    MountCall(req.stagingPath, Mount(source, NFS_TYPE, options))
  }

  function PublishOptions(req: NodeRequest): seq<string>
    requires req.PublishRequest? && req.capability.Some?
  {
    [BIND_OPTION] + Flags(req.capability) +
    if req.isReadOnly || req.capability.value.readerOnly then [READ_ONLY_OPTION] else []
  }

  function PublishCall(req: NodeRequest): MountCall
    requires req.PublishRequest? && req.capability.Some?
  {
    MountCall(req.targetPath, Mount(req.stagingPath, NFS_TYPE, PublishOptions(req)))
  }

  // The RPCs

  // Mounting holds the next call, and the call to make if that one fails.
  datatype NodePc =
    | Begin
    | CheckPath
    | MakeDirectory
    | Mounting(call: MountCall, fallback: Option<MountCall>)
    | CleanUp
    | CleanUpStaging
    | Unlock(response: NodeResponse)
    | Returned(response: NodeResponse)

  datatype Attempt = Attempt(call: MountCall, ok: bool)

  // An RPC in flight, with the mount calls that it has made
  datatype NodeRpc = NodeRpc(req: NodeRequest, pc: NodePc, tried: seq<Attempt>)

  // Staging locks the volume ID, publishing the raw target path.
  function LockKey(req: NodeRequest): string {
    if req.StageRequest? || req.UnstageRequest? then req.volumeID else req.targetPath
  }

  // The path that the request mounts on or unmounts
  function PathOf(req: NodeRequest): string {
    if req.StageRequest? || req.UnstageRequest? then req.stagingPath else req.targetPath
  }

  predicate Mounts(req: NodeRequest) {
    req.StageRequest? || req.PublishRequest?
  }

  // The checks before the lock; all of them answer InvalidArgument.
  predicate Acceptable(parse: AddressParser, req: NodeRequest) {
    && req.volumeID != ""
    && (req.UnpublishRequest? || req.stagingPath != "")
    && (req.PublishRequest? || req.UnpublishRequest? ==> req.targetPath != "")
    && (Mounts(req) ==> req.capability.Some?)
    && (req.StageRequest? ==>
          && req.capability.value.mountFlags.Some?
          && NodeTargets(parse, req.context).0 != ""
          && LookUp(req.context, MTLS_MODE) in {"", MTLS_REQUIRED, MTLS_OPTIONAL, MTLS_DISABLED})
  }

  // nodeStageVolume and nodePublishVolume up to the first mount call
  function FirstCall(parse: AddressParser, req: NodeRequest): NodePc
    requires Acceptable(parse, req) && Mounts(req)
  {
    if req.PublishRequest? then Mounting(PublishCall(req), None)
    else
      var (source, ips) := NodeTargets(parse, req.context);
      var mode := LookUp(req.context, MTLS_MODE);
      var options := OptionsFor(Flags(req.capability), ips);
      if mode == MTLS_REQUIRED then Mounting(StageCall(req, source, options + [MTLS_OPTION]), None)
      else if mode == MTLS_OPTIONAL then
        Mounting(StageCall(req, source, options + [MTLS_OPTION]), Some(StageCall(req, source, options)))
      else Mounting(StageCall(req, source, options), None)
  }

  function BeginStep(env: NodeEnv, w: NodeWorld, req: NodeRequest): (NodeWorld, NodePc) {
    if !Acceptable(env.parse, req) then (w, Returned(Error(InvalidArgument)))
    else if LockKey(req) in w.locks then (w, Returned(Error(Aborted)))
    else (w.(locks := w.locks + {LockKey(req)}), if Mounts(req) then CheckPath else CleanUp)
  }

  // ensureMountPoint: a mounted path is a success of the whole RPC.
  function CheckStep(env: NodeEnv, w: NodeWorld, req: NodeRequest, o: Outcome): NodePc
    requires Acceptable(env.parse, req) && Mounts(req)
  {
    match PerformCheck(env.clean, w.mounts, PathOf(req), o)
    case Mounted => Unlock(Done)
    case NotMounted => FirstCall(env.parse, req)
    case NoSuchPath => MakeDirectory
    case CheckFailed => Unlock(Error(Internal))
  }

  function AfterMount(req: NodeRequest, fallback: Option<MountCall>, ok: bool): NodePc {
    if ok then Unlock(Done)
    else if fallback.Some? then Mounting(fallback.value, None)
    else if req.PublishRequest? then CleanUpStaging
    else Unlock(Error(Internal))
  }

  function StepRpc(env: NodeEnv, w: NodeWorld, rpc: NodeRpc, o: Outcome): (NodeWorld, NodeRpc)
  {
    var req := rpc.req;
    match rpc.pc
    case Begin =>
      var (w', pc') := BeginStep(env, w, req);
      (w', rpc.(pc := pc'))
    case CheckPath =>
      (w, if Acceptable(env.parse, req) && Mounts(req) then rpc.(pc := CheckStep(env, w, req, o)) else rpc)
    case MakeDirectory =>
      (w,
       if !(Acceptable(env.parse, req) && Mounts(req)) then rpc
       else if o.Succeeds? then rpc.(pc := FirstCall(env.parse, req))
       else rpc.(pc := Unlock(Error(Internal))))
    case Mounting(call, fallback) =>
      var (mounts, ok) := PerformMount(env.clean, w.mounts, call, o);
      (w.(mounts := mounts), NodeRpc(req, AfterMount(req, fallback, ok), rpc.tried + [Attempt(call, ok)]))
    case CleanUp =>
      var (mounts, ok) := PerformCleanup(env.clean, w.mounts, PathOf(req), o);
      (w.(mounts := mounts), rpc.(pc := Unlock(if ok then Done else Error(Internal))))
    case CleanUpStaging =>
      // The staging path of a failed publish; the volume is not locked.
      (if req.PublishRequest? then w.(mounts := PerformCleanup(env.clean, w.mounts, req.stagingPath, o).0) else w,
       rpc.(pc := Unlock(Error(Internal))))
    case Unlock(response) =>
      (w.(locks := w.locks - {LockKey(req)}), rpc.(pc := Returned(response)))
    case Returned(_) => (w, rpc)
  }

  // The system: one host and any number of RPCs in flight

  datatype NodeSystem = NodeSystem(w: NodeWorld, rpcs: map<nat, NodeRpc>)

  datatype NodeEvent = Start(id: nat, req: NodeRequest) | Step(id: nat, o: Outcome)

  function Apply(env: NodeEnv, s: NodeSystem, e: NodeEvent): NodeSystem {
    match e
    case Start(id, req) =>
      if id in s.rpcs then s else s.(rpcs := s.rpcs[id := NodeRpc(req, Begin, [])])
    case Step(id, o) =>
      if id !in s.rpcs then s
      else
        var (w, rpc) := StepRpc(env, s.w, s.rpcs[id], o);
        NodeSystem(w, s.rpcs[id := rpc])
  }

  function Run(env: NodeEnv, s: NodeSystem, events: seq<NodeEvent>): NodeSystem
    decreases events
  {
    if events == [] then s else Run(env, Apply(env, s, events[0]), events[1..])
  }

  // The requests of a run come from this set.
  ghost predicate Draws(events: seq<NodeEvent>, reqs: set<NodeRequest>) {
    forall e | e in events && e.Start? :: e.req in reqs
  }

  lemma {:induction false} RunInTwo(env: NodeEnv, s: NodeSystem, first: seq<NodeEvent>, second: seq<NodeEvent>)
    ensures Run(env, s, first + second) == Run(env, Run(env, s, first), second)
    decreases first
  {
    if first == [] {
      assert first + second == second;
    } else {
      assert (first + second)[1..] == first[1..] + second;
      RunInTwo(env, Apply(env, s, first[0]), first[1..], second);
    }
  }

  // Nothing in flight; the mount table may be any.
  predicate Initial(s: NodeSystem) {
    s.w.locks == {} && s.rpcs == map[]
  }

  // An uninterrupted RPC, each of whose steps meets the next outcome

  const MAX_STEPS: nat := 8

  function Next(os: seq<Outcome>): Outcome {
    if os == [] then Succeeds else os[0]
  }

  function Later(os: seq<Outcome>): seq<Outcome> {
    if os == [] then [] else os[1..]
  }

  function Alone(env: NodeEnv, w: NodeWorld, rpc: NodeRpc, os: seq<Outcome>, steps: nat): (NodeWorld, NodeRpc)
    decreases steps
  {
    if rpc.pc.Returned? || steps == 0 then (w, rpc)
    else
      var (w', rpc') := StepRpc(env, w, rpc, Next(os));
      Alone(env, w', rpc', Later(os), steps - 1)
  }
}
