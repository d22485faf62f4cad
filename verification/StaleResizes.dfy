// The other direction for quotas: for every set of requests that does not agree
// there is a run in which a decision of an expand is out of date.
module StaleResizes {
  import opened Wrappers
  import opened Handles
  import opened Labels
  import opened NfsModel
  import opened LinodeContract
  import opened Transport
  import opened ControllerSteps
  import opened Status
  import opened VolumeFrames
  import opened QuotaSafety
  import opened Witnesses

  // The run has come to a state in which h has this capacity, no lock is taken,
  // and these RPCs can start.
  ghost predicate Opened(s: System, h: Handle, capacity: int) {
    && Valid(s.w.b) && Live(s.w.b, h) && CapacityOf(s.w.b, h) == capacity && s.w.locks == {}
    && 1 !in s.rpcs && 2 !in s.rpcs
  }

  lemma OpensWith(env: Env, h: Handle, capacity: nat) returns (s: System)
    ensures InitialQuota(s, h) && Opened(s, h, capacity)
  {
    hide Valid;
    var f := Filesystem(h.filesystemID, h.spaceID, "a", env.region, capacity, [NFSv4], FilesystemActive, [], [], None);
    OneFilesystemIsValid(f, NewPolicy(f), "", {});
    s := Fresh(OneFilesystem(f, NewPolicy(f), "", {}));
  }

  // A CreateVolume gives h a negative capacity.

  function NoFilesystems(env: Env, h: Handle, spaceLabel: string): Backend {
    Backend(h.spaceID, spaceLabel, "", env.region, {}, map[], map[], map[], map[], h.filesystemID, 0)
  }

  lemma CreatesFirst(env: Env, w: World, r: Request, h: Handle)
    requires CreatesNegative(r, h) && w.b == NoFilesystems(env, h, SpaceLabelFor(r.parameters.value.space))
    ensures Valid(w.b)
    ensures StepRpc(env, w, r, Provisioning(FindFilesystem(w.b.spaceID, w.b.mtlsMode)), Delivered) ==
            (w, Provisioning(CallCreate(w.b.spaceID, w.b.mtlsMode)))
    ensures var (w', pc') := StepRpc(env, w, r, Provisioning(CallCreate(w.b.spaceID, w.b.mtlsMode)), Delivered);
            Live(w'.b, h) && CapacityOf(w'.b, h) == RequestedCapacity(r.range) && w'.locks == w.locks
  {
    hide LabelOf;
    LookupIsUnique(w.b, LabelOf(r.name), env.region);
  }

  lemma OpensNegative(env: Env, r: Request, h: Handle) returns (s: System, events: seq<Event>)
    requires CreatesNegative(r, h)
    ensures InitialQuota(s, h) && Draws(events, {r}) && Opened(Run(env, s, events), h, RequestedCapacity(r.range))
  {
    hide IndexOk, QuotasOk, StepRpc, Run, LabelOf;
    s := Fresh(NoFilesystems(env, h, SpaceLabelFor(r.parameters.value.space)));
    var w := s.w;
    CreatesFirst(env, w, r, h);
    CreatorStarts(env, w, r, h);
    var resolve, read := Provisioning(ResolveSpace), Provisioning(ReadSpacePolicy(w.b.spaceID));
    var find := Provisioning(FindFilesystem(w.b.spaceID, w.b.mtlsMode));
    var create := Provisioning(CallCreate(w.b.spaceID, w.b.mtlsMode));
    var (w', pc') := StepRpc(env, w, r, create, Delivered);
    events := Starts(env, s, 0, r);
    events := Steps(env, s, events, 0, r, w, Begin, w, resolve);
    events := Steps(env, s, events, 0, r, w, resolve, w, read);
    events := Steps(env, s, events, 0, r, w, read, w, find);
    events := Steps(env, s, events, 0, r, w, find, w, create);
    events := Steps(env, s, events, 0, r, w, create, w', pc');
  }

  lemma CreatorStarts(env: Env, w: World, r: Request, h: Handle)
    requires CreatesNegative(r, h) && w.b == NoFilesystems(env, h, SpaceLabelFor(r.parameters.value.space))
    ensures Valid(w.b)
    ensures StepRpc(env, w, r, Begin, Delivered) == (w, Provisioning(ResolveSpace))
    ensures StepRpc(env, w, r, Provisioning(ResolveSpace), Delivered) == (w, Provisioning(ReadSpacePolicy(w.b.spaceID)))
    ensures StepRpc(env, w, r, Provisioning(ReadSpacePolicy(w.b.spaceID)), Delivered) ==
            (w, Provisioning(FindFilesystem(w.b.spaceID, w.b.mtlsMode)))
  {
    hide StepRpc;
    StartsProvisioning(env, w, r);
  }

  // One expand

  function Decision(current: int, h: Handle, range: Option<CapacityRange>): LockedStage {
    match DecideExpand(current, range)
    case KeepCapacity => Unlock(VolumeExpanded(current))
    case RejectShrink => Unlock(Error(InvalidArgument))
    case Resize(capacity) => WriteQuota(h, capacity)
  }

  lemma TakesItsLock(env: Env, w: World, req: Request, h: Handle)
    requires Valid(w.b) && Expands(req, h) && req.volumeID !in w.locks
    ensures StepRpc(env, w, req, Begin, Delivered) == (w.(locks := w.locks + {req.volumeID}), Locked(ReadQuota(h)))
  {
    hide IndexOk, QuotasOk, ParseVolumeHandle;
    EmptyIsNoHandle();
  }

  lemma ReadsQuota(env: Env, w: World, req: Request, h: Handle)
    requires Valid(w.b) && Expands(req, h) && Live(w.b, h)
    ensures StepRpc(env, w, req, Locked(ReadQuota(h)), Delivered) ==
            (w, Locked(Decision(CapacityOf(w.b, h), h, req.range)))
  {
    QuotaIsUnique(w.b, h.filesystemID);
  }

  lemma SendsResize(env: Env, w: World, req: Request, h: Handle, capacity: int)
    requires Valid(w.b) && Live(w.b, h) && CapacityOf(w.b, h) <= capacity
    ensures var (w', pc') := StepRpc(env, w, req, Locked(WriteQuota(h, capacity)), Delivered);
            && Valid(w'.b) && Live(w'.b, h) && CapacityOf(w'.b, h) == capacity && w'.locks == w.locks
            && pc' == Locked(Unlock(VolumeExpanded(capacity)))
  {
    hide IndexOk, QuotasOk;
    UpdateFilesystemKeepsValid(w.b, h.spaceID, h.filesystemID, Some(capacity));
  }

  // An expand takes its lock, reads the capacity and decides.
  lemma Decides(env: Env, s: System, id: nat, req: Request, h: Handle) returns (events: seq<Event>)
    requires Valid(s.w.b) && Expands(req, h) && CanStart(s, id, req) && Live(s.w.b, h)
    ensures Draws(events, {req})
    ensures Run(env, s, events) ==
            Moved(s, id, req, s.w.(locks := s.w.locks + {req.volumeID}),
              Locked(Decision(CapacityOf(s.w.b, h), h, req.range)))
  {
    hide IndexOk, QuotasOk, Run, StepRpc, ParseVolumeHandle;
    var locked := s.w.(locks := s.w.locks + {req.volumeID});
    events := Starts(env, s, id, req);
    TakesItsLock(env, s.w, req, h);
    events := Steps(env, s, events, id, req, s.w, Begin, locked, Locked(ReadQuota(h)));
    ReadsQuota(env, locked, req, h);
    events := Steps(env, s, events, id, req, locked, Locked(ReadQuota(h)), locked,
                    Locked(Decision(CapacityOf(s.w.b, h), h, req.range)));
  }

  // Two expands under different spellings decide on the same capacity.
  lemma BothDecide(env: Env, s: System, a: Request, b: Request, h: Handle, current: int) returns (events: seq<Event>)
    requires Opened(s, h, current) && Expands(a, h) && Expands(b, h) && a.volumeID != b.volumeID
    ensures Draws(events, {a, b})
    ensures var s' := Run(env, s, events);
            && s'.w.b == s.w.b && 1 in s'.rpcs && 2 in s'.rpcs
            && s'.rpcs[1] == Rpc(a, Locked(Decision(current, h, a.range)))
            && s'.rpcs[2] == Rpc(b, Locked(Decision(current, h, b.range)))
  {
    hide IndexOk, QuotasOk, Run, StepRpc, ParseVolumeHandle;
    var one := Decides(env, s, 1, a, h);
    var s1 := Run(env, s, one);
    var two := Decides(env, s1, 2, b, h);
    RunInTwo(env, s, one, two);
    events := one + two;
  }

  // An expand sends the resize that it decided on.
  lemma Sends(env: Env, s: System, id: nat, h: Handle, capacity: int)
    requires Valid(s.w.b) && id in s.rpcs && s.rpcs[id].pc == Locked(WriteQuota(h, capacity))
    requires Live(s.w.b, h) && CapacityOf(s.w.b, h) <= capacity
    ensures var s' := Run(env, s, [Step(id, Delivered)]);
            && Live(s'.w.b, h) && CapacityOf(s'.w.b, h) == capacity
            && s'.rpcs == s.rpcs[id := Rpc(s.rpcs[id].req, Locked(Unlock(VolumeExpanded(capacity))))]
  {
    hide IndexOk, QuotasOk, Run, StepRpc;
    SendsResize(env, s.w, s.rpcs[id].req, h, capacity);
    RunOne(env, s, Step(id, Delivered));
  }

  // The larger of two resizes takes effect before the smaller one is sent.
  lemma LateResize(env: Env, s: System, small: Request, large: Request, h: Handle, current: int)
    returns (events: seq<Event>)
    requires Opened(s, h, current) && Expands(small, h) && Expands(large, h) && small.volumeID != large.volumeID
    requires DecideExpand(current, small.range).Resize? && DecideExpand(current, large.range).Resize?
    requires RequestedCapacity(small.range) < RequestedCapacity(large.range)
    ensures Draws(events, {small, large}) && !ResizesFit(Run(env, s, events), h)
  {
    hide IndexOk, QuotasOk, Run, StepRpc, ParseVolumeHandle;
    var one := BothDecide(env, s, small, large, h, current);
    var s1 := Run(env, s, one);
    Sends(env, s1, 2, h, RequestedCapacity(large.range));
    events := one + [Step(2, Delivered)];
    RunInTwo(env, s, one, [Step(2, Delivered)]);
    assert TouchesCapacity(Run(env, s, events).rpcs[1].pc, h);
  }

  // A resize takes effect before an expand that kept the capacity reports it.
  lemma LateReport(env: Env, s: System, keeper: Request, large: Request, h: Handle, current: int)
    returns (events: seq<Event>)
    requires Opened(s, h, current) && Expands(keeper, h) && Expands(large, h) && keeper.volumeID != large.volumeID
    requires DecideExpand(current, keeper.range).KeepCapacity? && DecideExpand(current, large.range).Resize?
    ensures Draws(events, {keeper, large}) && !ReportsHold(Run(env, s, events), h)
  {
    hide IndexOk, QuotasOk, Run, StepRpc, ParseVolumeHandle;
    var one := BothDecide(env, s, keeper, large, h, current);
    var s1 := Run(env, s, one);
    Sends(env, s1, 2, h, RequestedCapacity(large.range));
    events := one + [Step(2, Delivered)];
    RunInTwo(env, s, one, [Step(2, Delivered)]);
    assert Reports(Run(env, s, events).rpcs[1], h);
  }

  // Of two resizes the larger takes effect before the smaller is reported.
  lemma OvertakenReport(env: Env, s: System, small: Request, large: Request, h: Handle, current: int)
    returns (events: seq<Event>)
    requires Opened(s, h, current) && Expands(small, h) && Expands(large, h) && small.volumeID != large.volumeID
    requires DecideExpand(current, small.range).Resize? && DecideExpand(current, large.range).Resize?
    requires RequestedCapacity(small.range) < RequestedCapacity(large.range)
    ensures Draws(events, {small, large}) && !ReportsHold(Run(env, s, events), h)
  {
    hide IndexOk, QuotasOk, Run, StepRpc, ParseVolumeHandle;
    var one := BothDecide(env, s, small, large, h, current);
    var s1 := Run(env, s, one);
    var first, second := [Step(1, Delivered)], [Step(2, Delivered)];
    Sends(env, s1, 1, h, RequestedCapacity(small.range));
    Sends(env, Run(env, s1, first), 2, h, RequestedCapacity(large.range));
    RunInTwo(env, s1, first, second);
    RunInTwo(env, s, one, first + second);
    events := one + (first + second);
    assert Reports(Run(env, s, events).rpcs[1], h);
  }

  ghost predicate ResizesAlwaysFit(env: Env, reqs: set<Request>, h: Handle) {
    forall s, events | InitialQuota(s, h) && Draws(events, reqs) :: ResizesFit(Run(env, s, events), h)
  }

  ghost predicate ReportsAlwaysHold(env: Env, reqs: set<Request>, h: Handle) {
    forall s, events | InitialQuota(s, h) && Draws(events, reqs) :: ReportsHold(Run(env, s, events), h)
  }

  // A state from which these two expands, in this order or the other, resize to
  // different capacities.
  lemma OpensForResizes(env: Env, reqs: set<Request>, a: Request, b: Request, h: Handle)
    returns (s: System, events: seq<Event>, current: int)
    requires a in reqs && b in reqs
    requires Resizes(a, h, MayStartNegative(reqs, h)) && Resizes(b, h, MayStartNegative(reqs, h))
    ensures InitialQuota(s, h) && Draws(events, reqs) && Opened(Run(env, s, events), h, current)
    ensures DecideExpand(current, a.range).Resize? && DecideExpand(current, b.range).Resize?
  {
    hide IndexOk, QuotasOk, Run, StepRpc, ParseVolumeHandle;
    if MayStartNegative(reqs, h) {
      var r :| r in reqs && CreatesNegative(r, h);
      s, events := OpensNegative(env, r, h);
      current := RequestedCapacity(r.range);
    } else {
      s := OpensWith(env, h, 0);
      events, current := [], 0;
      RunNothing(env, s);
    }
  }

  lemma RunNothing(env: Env, s: System)
    requires Valid(s.w.b)
    ensures Run(env, s, []) == s
  {
    hide IndexOk, QuotasOk;
  }

  lemma DisagreementIsLate(env: Env, reqs: set<Request>, h: Handle)
    requires !ResizesAgree(reqs, h)
    ensures !ResizesAlwaysFit(env, reqs, h)
    ensures !ReportsAlwaysHold(env, reqs, h)
  {
    hide IndexOk, QuotasOk, Run, StepRpc, ParseVolumeHandle, ResizesFit, ReportsHold, MayStartNegative;
    var negative := MayStartNegative(reqs, h);
    var a, b :| a in reqs && b in reqs && Resizes(a, h, negative) && Resizes(b, h, negative)
                && RequestedCapacity(a.range) != RequestedCapacity(b.range) && a.volumeID != b.volumeID;
    var s, events, current := OpensForResizes(env, reqs, a, b, h);
    var small, large := a, b;
    if RequestedCapacity(a.range) > RequestedCapacity(b.range) {
      small, large := b, a;
    }
    var late := LateResize(env, Run(env, s, events), small, large, h, current);
    var overtaken := OvertakenReport(env, Run(env, s, events), small, large, h, current);
    RunInTwo(env, s, events, late);
    RunInTwo(env, s, events, overtaken);
    assert Draws(events + late, reqs) && Draws(events + overtaken, reqs);
  }

  // In every run over a set of requests, no resize about to be sent shrinks,
  // exactly when resizes of the filesystem to different capacities spell its
  // volume ID in one way. An expand without a required capacity counts only where
  // a request may create the filesystem with a negative capacity.
  lemma ResizesFitIffAgree(env: Env, reqs: set<Request>, h: Handle)
    ensures ResizesAgree(reqs, h) <==> ResizesAlwaysFit(env, reqs, h)
  {
    hide IndexOk, QuotasOk, Run, StepRpc, ResizesFit, ResizesAgree;
    if ResizesAgree(reqs, h) {
      forall s, events | InitialQuota(s, h) && Draws(events, reqs) ensures ResizesFit(Run(env, s, events), h) {
        AgreementMakesResizesFit(env, s, events, reqs, h);
      }
    } else {
      DisagreementIsLate(env, reqs, h);
    }
  }

  lemma UnequalRequirementsAreLate(env: Env, reqs: set<Request>, a: Request, b: Request, h: Handle)
    requires a in reqs && b in reqs && Expands(a, h) && Expands(b, h) && a.volumeID != b.volumeID
    requires Required(a.range) < Required(b.range)
    ensures !ReportsAlwaysHold(env, reqs, h)
  {
    hide IndexOk, QuotasOk, Run, StepRpc, ParseVolumeHandle, ReportsHold;
    var s := OpensWith(env, h, Required(a.range));
    var events := LateReport(env, s, a, b, h, Required(a.range));
    assert Draws(events, reqs);
  }

  // In every run, what an expand is about to report is the capacity, exactly when
  // in addition expands that require different capacities spell the volume ID in
  // one way.
  lemma ReportsHoldIffAgree(env: Env, reqs: set<Request>, h: Handle)
    ensures ReportsAgree(reqs, h) <==> ReportsAlwaysHold(env, reqs, h)
  {
    hide IndexOk, QuotasOk, Run, StepRpc, ReportsHold, ResizesAgree, ParseVolumeHandle;
    if ReportsAgree(reqs, h) {
      forall s, events | InitialQuota(s, h) && Draws(events, reqs) ensures ReportsHold(Run(env, s, events), h) {
        ExpandIsReported(env, s, events, reqs, h);
      }
    } else if !ResizesAgree(reqs, h) {
      DisagreementIsLate(env, reqs, h);
    } else {
      var a, b :| a in reqs && b in reqs && Expands(a, h) && Expands(b, h)
                  && Required(a.range) != Required(b.range) && a.volumeID != b.volumeID;
      if Required(a.range) < Required(b.range) {
        UnequalRequirementsAreLate(env, reqs, a, b, h);
      } else {
        UnequalRequirementsAreLate(env, reqs, b, a, h);
      }
    }
  }
}
