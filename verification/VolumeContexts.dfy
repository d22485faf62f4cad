// From the controller to the node: staging with the context that a CreateVolume
// has answered mounts the filesystem that it created or found, by the mTLS mode of
// its space.
module VolumeContexts {
  import opened NfsModel
  import opened MountTargets
  import opened CreatedVolumes
  import C = ControllerSteps
  import N = NodeSteps
  import NodeSafety

  // What the node reads from a context that describes f.
  lemma ReadsDescription(parse: AddressParser, context: map<string, string>, f: Filesystem)
    requires DescribesPlaces(context, f)
    ensures NodeTargets(parse, context) == NodeTargets(parse, VolumeContext(f, ""))
  {
    KeysDiffer();
  }

  // A staging mount call as the context asks for it, on the i-th attempt
  ghost predicate StagesFilesystem(parse: AddressParser, f: Filesystem, mtlsMode: string, attempt: N.Attempt, i: nat) {
    && (FQDN(f) != "" || CommasAreHarmless(parse, f.mountTargetIPs) ==> attempt.call.mount.source == SourceOf(parse, f))
    && (mtlsMode == N.MTLS_REQUIRED || (mtlsMode == N.MTLS_OPTIONAL && i == 0) ==>
          N.MTLS_OPTION in attempt.call.mount.options)
  }

  // In every run of the controller and every run of a node: a volume that was
  // answered is a filesystem that was active and of the request's label, and
  // staging with its context mounts the source that the controller answers for.
  // If the space requires mTLS, it makes no mount call without it, and if mTLS is
  // optional, the first one has it.
  lemma StagesWhatWasCreated(cenv: C.Env, c: C.System, cevents: seq<C.Event>, created: nat,
                             nenv: N.NodeEnv, n: N.NodeSystem, nevents: seq<N.NodeEvent>, staging: nat)
    returns (f: Filesystem, k: nat)
    requires C.Initial(c) && created in C.Run(cenv, c, cevents).rpcs
    requires var pc := C.Run(cenv, c, cevents).rpcs[created].pc;
             pc.Returned? && pc.response.VolumeCreated?
    requires N.Initial(n) && staging in N.Run(nenv, n, nevents).rpcs
    requires var req := N.Run(nenv, n, nevents).rpcs[staging].req;
             req.StageRequest?
             && req.context == C.Run(cenv, c, cevents).rpcs[created].pc.response.volume.context
    ensures WasActive(cenv, c, cevents, C.Run(cenv, c, cevents).rpcs[created].req, f, k)
    ensures var tried := N.Run(nenv, n, nevents).rpcs[staging].tried;
            forall i | 0 <= i < |tried| :: StagesFilesystem(nenv.parse, f, c.w.b.mtlsMode, tried[i], i)
  {
    hide C.Run, C.StepRpc, WasActive;
    f, k := AnsweredVolumeWasActive(cenv, c, cevents, created);
    var volume := C.Run(cenv, c, cevents).rpcs[created].pc.response.volume;
    var rpc := N.Run(nenv, n, nevents).rpcs[staging];
    ReadsDescription(nenv.parse, rpc.req.context, f);
    AgreementIff(nenv.parse, f, "");
    ModeIsRead(volume, f, c.w.b.mtlsMode);
    if rpc.tried != [] {
      NodeSafety.StagingFollowsMode(nenv, n, nevents, staging);
      forall i | 0 <= i < |rpc.tried| ensures StagesFilesystem(nenv.parse, f, c.w.b.mtlsMode, rpc.tried[i], i) {
        var options := rpc.tried[i].call.mount.options;
        assert options != [] ==> options[|options| - 1] in options;
      }
    }
  }

  lemma ModeIsRead(volume: C.Volume, f: Filesystem, mtlsMode: string)
    requires Describes(volume, f, mtlsMode)
    ensures LookUp(volume.context, MTLS_MODE) == mtlsMode
  {
  }
}
