// The node RPCs as the driver writes them. Each method is proved to be the
// uninterrupted run of its step machine, over any failures of the host.
module Node {
  import opened Wrappers
  import opened MountTargets
  import opened MountTable
  import opened StageOptions
  import opened Status
  import opened Locking
  import opened NodeSteps
  import opened HostMounter

  lemma OneStep(env: NodeEnv, w: NodeWorld, rpc: NodeRpc, os: seq<Outcome>, steps: nat)
    requires steps > 0 && !rpc.pc.Returned?
    ensures var (w', rpc') := StepRpc(env, w, rpc, Next(os));
            Alone(env, w, rpc, os, steps) == Alone(env, w', rpc', Later(os), steps - 1)
  {
  }

  class NodeServer {
    const parse: AddressParser
    const mounter: SanityMounter
    const volumeLocks: VolumeLocks

    constructor (parse: AddressParser, mounter: SanityMounter, volumeLocks: VolumeLocks)
      ensures this.parse == parse && this.mounter == mounter && this.volumeLocks == volumeLocks
    {
      this.parse, this.mounter, this.volumeLocks := parse, mounter, volumeLocks;
    }

    function Host(): NodeEnv {
      NodeEnv(mounter.clean, parse)
    }

    function Current(): NodeWorld
      reads mounter, volumeLocks
    {
      NodeWorld(mounter.mounts, volumeLocks.locks)
    }

    // This call is the whole run of the request from w, under the outcomes os.
    predicate Completes(req: NodeRequest, w: NodeWorld, os: seq<Outcome>, steps: nat, r: NodeResponse)
      reads mounter, volumeLocks
    {
      var (w', rpc') := Alone(Host(), w, NodeRpc(req, Begin, []), os, steps);
      w' == Current() && rpc'.pc == Returned(r)
    }

    // From rpc the run comes to the point now.
    predicate Comes(w: NodeWorld, rpc: NodeRpc, os: seq<Outcome>, steps: nat, now: NodeRpc, left: nat)
      reads mounter, volumeLocks
    {
      left >= 1 && Alone(Host(), w, rpc, os, steps) == Alone(Host(), Current(), now, mounter.os, left)
    }

    // Where ensureMountPoint leaves an RPC
    function AfterEnsure(req: NodeRequest, notMnt: bool, ok: bool): NodePc
      requires Acceptable(parse, req) && Mounts(req)
    {
      if !ok then Unlock(Error(Internal)) else if !notMnt then Unlock(Done) else FirstCall(parse, req)
    }

    method EnsureMountPoint(path: string, ghost req: NodeRequest, ghost steps: nat)
      returns (notMnt: bool, ok: bool, ghost left: nat)
      requires Acceptable(parse, req) && Mounts(req) && path == PathOf(req) && steps >= 5
      modifies mounter
      ensures mounter.mounts == old(mounter.mounts) && left >= steps - 2
      ensures Comes(old(Current()), NodeRpc(req, CheckPath, []), old(mounter.os), steps,
                    NodeRpc(req, AfterEnsure(req, notMnt, ok), []), left)
    {
      OneStep(Host(), Current(), NodeRpc(req, CheckPath, []), mounter.os, steps);
      left := steps - 1;
      var check := mounter.IsLikelyNotMountPoint(path);
      if check.NoSuchPath? {
        OneStep(Host(), Current(), NodeRpc(req, MakeDirectory, []), mounter.os, left);
        left := left - 1;
        var made := mounter.MkdirAll(path);
        if !made {
          return true, false, left;
        }
      } else if check.CheckFailed? {
        return true, false, left;
      }
      return !check.Mounted?, true, left;
    }

    method NodeStageVolume(volumeID: string, stagingPath: string, capability: Option<Capability>,
                           context: map<string, string>, ghost steps: nat)
      returns (r: NodeResponse)
      requires steps >= MAX_STEPS
      modifies mounter, volumeLocks
      ensures Completes(StageRequest(volumeID, stagingPath, capability, context),
                        old(Current()), [Succeeds] + old(mounter.os), steps, r)
    {
      var req := StageRequest(volumeID, stagingPath, capability, context);
      ghost var os := [Succeeds] + mounter.os;
      assert Later(os) == mounter.os;
      OneStep(Host(), Current(), NodeRpc(req, Begin, []), os, steps);
      if volumeID == "" || stagingPath == "" {
        return Error(InvalidArgument);
      }
      if capability.None? || capability.value.mountFlags.None? {
        return Error(InvalidArgument);
      }
      var source, ips := NodeMountTargets(parse, context);
      if source == "" {
        return Error(InvalidArgument);
      }
      var mtlsMode := LookUp(context, MTLS_MODE);
      if mtlsMode != "" && !AllowedMTLSMode(mtlsMode) {
        return Error(InvalidArgument);
      }
      var acquired := volumeLocks.TryAcquire(volumeID);
      if !acquired {
        return Error(Aborted);
      }
      ghost var left, now;
      r, now, left := StageLocked(source, ips, mtlsMode, req, steps - 1);
      OneStep(Host(), Current(), now, mounter.os, left);
      volumeLocks.Release(volumeID);
    }

    // What NodeStageVolume does while it holds the lock
    method StageLocked(source: string, ips: seq<string>, mtlsMode: string, req: NodeRequest, ghost steps: nat)
      returns (r: NodeResponse, ghost now: NodeRpc, ghost left: nat)
      requires Acceptable(parse, req) && req.StageRequest? && steps >= 5
      requires (source, ips) == NodeTargets(parse, req.context) && mtlsMode == LookUp(req.context, MTLS_MODE)
      modifies mounter
      ensures now.req == req && now.pc == Unlock(r)
      ensures Comes(old(Current()), NodeRpc(req, CheckPath, []), old(mounter.os), steps, now, left)
    {
      var notMnt, ok;
      notMnt, ok, left := EnsureMountPoint(req.stagingPath, req, steps);
      now := NodeRpc(req, AfterEnsure(req, notMnt, ok), []);
      if !ok {
        r := Error(Internal);
      } else if !notMnt {
        r := Done;
      } else {
        r, now, left := Stage(source, ips, mtlsMode, req, left);
      }
    }

    predicate AllowedMTLSMode(mode: string) {
      mode == MTLS_REQUIRED || mode == MTLS_OPTIONAL || mode == MTLS_DISABLED
    }

    // The mount options before the mTLS option is added
    method BuildOptions(flags: seq<string>, ips: seq<string>) returns (options: seq<string>)
      ensures options == OptionsFor(flags, ips)
    {
      var start := if |flags| == 0 then DEFAULT_OPTIONS else flags;
      var slots := new string[|start|](i requires 0 <= i < |start| => start[i]);
      assert slots[..] == start;
      RewriteInPlace(slots, ips);
      return slots[..];
    }

    // nodeStageVolume
    method Stage(source: string, ips: seq<string>, mtlsMode: string, req: NodeRequest, ghost steps: nat)
      returns (r: NodeResponse, ghost now: NodeRpc, ghost left: nat)
      requires Acceptable(parse, req) && req.StageRequest? && steps >= 3
      requires (source, ips) == NodeTargets(parse, req.context) && mtlsMode == LookUp(req.context, MTLS_MODE)
      modifies mounter
      ensures now.req == req && now.pc == Unlock(r)
      ensures Comes(old(Current()), NodeRpc(req, FirstCall(parse, req), []), old(mounter.os), steps, now, left)
    {
      now, left := NodeRpc(req, FirstCall(parse, req), []), steps;
      var options := BuildOptions(Flags(req.capability), ips);
      if mtlsMode == MTLS_REQUIRED {
        options := options + [MTLS_OPTION];
      } else if mtlsMode == MTLS_OPTIONAL {
        var mtlsOptions := options + [MTLS_OPTION];
        var mounted := TryMount(source, req.stagingPath, mtlsOptions, now, left);
        now, left := Tried(now, mounted), left - 1;
        if mounted {
          return Done, now, left;
        }
      }
      var mounted := TryMount(source, req.stagingPath, options, now, left);
      now, left := Tried(now, mounted), left - 1;
      return if mounted then Done else Error(Internal), now, left;
    }

    // The next mount call of an RPC
    method TryMount(source: string, path: string, options: seq<string>, ghost now: NodeRpc, ghost steps: nat)
      returns (mounted: bool)
      requires steps >= 2 && now.pc.Mounting?
      requires now.pc.call == MountCall(path, Mount(source, NFS_TYPE, options))
      modifies mounter
      ensures Comes(old(Current()), now, old(mounter.os), steps, Tried(now, mounted), steps - 1)
    {
      OneStep(Host(), Current(), now, mounter.os, steps);
      mounted := mounter.Mount(source, path, NFS_TYPE, options);
    }

    // The RPC after the outcome of its next mount call
    ghost function Tried(rpc: NodeRpc, ok: bool): NodeRpc
      requires rpc.pc.Mounting?
    {
      NodeRpc(rpc.req, AfterMount(rpc.req, rpc.pc.fallback, ok), rpc.tried + [Attempt(rpc.pc.call, ok)])
    }

    method NodeUnstageVolume(volumeID: string, stagingPath: string, ghost steps: nat) returns (r: NodeResponse)
      requires steps >= MAX_STEPS
      modifies mounter, volumeLocks
      ensures Completes(UnstageRequest(volumeID, stagingPath), old(Current()), [Succeeds] + old(mounter.os), steps, r)
    {
      ghost var req := UnstageRequest(volumeID, stagingPath);
      ghost var os := [Succeeds] + mounter.os;
      assert Later(os) == mounter.os;
      OneStep(Host(), Current(), NodeRpc(req, Begin, []), os, steps);
      if volumeID == "" || stagingPath == "" {
        return Error(InvalidArgument);
      }
      var acquired := volumeLocks.TryAcquire(volumeID);
      if !acquired {
        return Error(Aborted);
      }
      OneStep(Host(), Current(), NodeRpc(req, CleanUp, []), mounter.os, steps - 1);
      var ok := mounter.CleanupMountPoint(stagingPath);
      r := if ok then Done else Error(Internal);
      OneStep(Host(), Current(), NodeRpc(req, Unlock(r), []), mounter.os, steps - 2);
      volumeLocks.Release(volumeID);
    }

    method NodePublishVolume(volumeID: string, stagingPath: string, targetPath: string, capability: Option<Capability>,
                             isReadOnly: bool, ghost steps: nat)
      returns (r: NodeResponse)
      requires steps >= MAX_STEPS
      modifies mounter, volumeLocks
      ensures Completes(PublishRequest(volumeID, stagingPath, targetPath, capability, isReadOnly),
                        old(Current()), [Succeeds] + old(mounter.os), steps, r)
    {
      var req := PublishRequest(volumeID, stagingPath, targetPath, capability, isReadOnly);
      ghost var os := [Succeeds] + mounter.os;
      assert Later(os) == mounter.os;
      OneStep(Host(), Current(), NodeRpc(req, Begin, []), os, steps);
      if volumeID == "" || stagingPath == "" || targetPath == "" || capability.None? {
        return Error(InvalidArgument);
      }
      var acquired := volumeLocks.TryAcquire(targetPath);
      if !acquired {
        return Error(Aborted);
      }
      var notMnt, ok;
      ghost var left, now;
      notMnt, ok, left := EnsureMountPoint(targetPath, req, steps - 1);
      now := NodeRpc(req, AfterEnsure(req, notMnt, ok), []);
      if !ok {
        r := Error(Internal);
      } else if !notMnt {
        r := Done;
      } else {
        r, now, left := Publish(req, left);
      }
      OneStep(Host(), Current(), now, mounter.os, left);
      volumeLocks.Release(targetPath);
    }

    // nodePublishVolume: when the bind mount fails, the staging path is cleaned up.
    method Publish(req: NodeRequest, ghost steps: nat)
      returns (r: NodeResponse, ghost now: NodeRpc, ghost left: nat)
      requires Acceptable(parse, req) && req.PublishRequest? && steps >= 3
      modifies mounter
      ensures now.req == req && now.pc == Unlock(r)
      ensures Comes(old(Current()), NodeRpc(req, FirstCall(parse, req), []), old(mounter.os), steps, now, left)
    {
      now, left := NodeRpc(req, FirstCall(parse, req), []), steps;
      var options := [BIND_OPTION];
      if req.capability.value.mountFlags.Some? {
        options := options + req.capability.value.mountFlags.value;
      }
      if req.isReadOnly || req.capability.value.readerOnly {
        options := options + [READ_ONLY_OPTION];
      }
      assert options == PublishOptions(req);
      var mounted := TryMount(req.stagingPath, req.targetPath, options, now, left);
      now, left := Tried(now, mounted), left - 1;
      if !mounted {
        OneStep(Host(), Current(), now, mounter.os, left);
        var _ := mounter.CleanupMountPoint(req.stagingPath);
        now, left := now.(pc := Unlock(Error(Internal))), left - 1;
        return Error(Internal), now, left;
      }
      return Done, now, left;
    }

    method NodeUnpublishVolume(volumeID: string, targetPath: string, ghost steps: nat) returns (r: NodeResponse)
      requires steps >= MAX_STEPS
      modifies mounter, volumeLocks
      ensures Completes(UnpublishRequest(volumeID, targetPath), old(Current()), [Succeeds] + old(mounter.os), steps, r)
    {
      ghost var req := UnpublishRequest(volumeID, targetPath);
      ghost var os := [Succeeds] + mounter.os;
      assert Later(os) == mounter.os;
      OneStep(Host(), Current(), NodeRpc(req, Begin, []), os, steps);
      if volumeID == "" || targetPath == "" {
        return Error(InvalidArgument);
      }
      var acquired := volumeLocks.TryAcquire(targetPath);
      if !acquired {
        return Error(Aborted);
      }
      OneStep(Host(), Current(), NodeRpc(req, CleanUp, []), mounter.os, steps - 1);
      var ok := mounter.CleanupMountPoint(targetPath);
      r := if ok then Done else Error(Internal);
      OneStep(Host(), Current(), NodeRpc(req, Unlock(r), []), mounter.os, steps - 2);
      volumeLocks.Release(targetPath);
    }
  }
}
