// The root quota of one filesystem over all interleavings, and what the lock
// adds to it.
module QuotaSafety {
  import opened Wrappers
  import opened Handles
  import opened Labels
  import opened LinodeContract
  import opened Transport
  import opened AccessPolicies
  import opened ControllerSteps
  import opened LockSafety
  import opened VolumeFrames
  import opened Ownership

  function CapacityOf(b: Backend, h: Handle): int
    requires Live(b, h)
  {
    b.filesystems[h.filesystemID].maxCapacity
  }

  // Only the resize of an expand changes the capacity, to what it asked for and
  // never downwards.
  lemma CapacityGrows(env: Env, w: World, req: Request, pc: Pc, d: Delivery, h: Handle)
    requires Valid(w.b) && Live(w.b, h)
    ensures var b' := StepRpc(env, w, req, pc, d).0.b;
            Live(b', h) ==>
              && CapacityOf(w.b, h) <= CapacityOf(b', h)
              && (CapacityOf(w.b, h) < CapacityOf(b', h) ==> pc == Locked(WriteQuota(h, CapacityOf(b', h))))
  {
    hide IndexOk, QuotasOk;
    StepFrame(env, w, req, pc, d, h);
    LiveIsBorn(w.b, h);
    if TouchesCapacity(pc, h) {
      ResizeSets(env, w, req, pc.at.capacity, d, h);
    }
  }

  lemma ResizeSets(env: Env, w: World, req: Request, capacity: int, d: Delivery, h: Handle)
    requires Valid(w.b) && Live(w.b, h)
    ensures var b' := StepRpc(env, w, req, Locked(WriteQuota(h, capacity)), d).0.b;
            Live(b', h) && (CapacityOf(b', h) == CapacityOf(w.b, h) || CapacityOf(b', h) == capacity)
  {
    hide IndexOk, QuotasOk;
  }

  ghost function RootCapacity(b: Backend, h: Handle): Option<int>
    requires Valid(b) && Live(b, h)
  {
    match FirstRoot(ListQuotas(b, h.spaceID, h.filesystemID).value)
    case None => None
    case Some(quota) => quota.maxCapacity
  }

  lemma RootCapacityIsCapacity(b: Backend, h: Handle)
    requires Valid(b) && Live(b, h)
    ensures RootCapacity(b, h) == Some(CapacityOf(b, h))
  {
    QuotaIsUnique(b, h.filesystemID);
  }

  // In every run, from any state, the root quota never decreases.
  lemma RootQuotaIsMonotone(env: Env, s: System, events: seq<Event>, h: Handle)
    requires Valid(s.w.b) && Live(s.w.b, h) && Live(Run(env, s, events).w.b, h)
    ensures var before, after := RootCapacity(s.w.b, h), RootCapacity(Run(env, s, events).w.b, h);
            before.Some? && after.Some? && before.value <= after.value
  {
    hide IndexOk, QuotasOk;
    History(env, s, events, h);
    RootCapacityIsCapacity(s.w.b, h);
    RootCapacityIsCapacity(Run(env, s, events).w.b, h);
  }

  // What an expand answers, if its calls succeed: it succeeds exactly when the
  // current capacity does not exceed a given limit, and the result is then the
  // larger of the current and the required capacity, inside the range. (A
  // negative current capacity without a required one grows to the limit.)
  lemma ExpandAnswer(current: int, range: Option<CapacityRange>)
    requires ExpandRangeValid(range)
    ensures var decision := DecideExpand(current, range);
            var required, limit := Required(range), Limit(range);
            && (!decision.RejectShrink? <==> limit == 0 || current <= limit)
            && (!decision.RejectShrink? ==>
                  var result := if decision.Resize? then decision.capacity else current;
                  && required <= result && (limit == 0 || result <= limit)
                  && result == if required == 0 && current < 0 then limit
                               else if required <= current then current else required)
  {
  }

  // What the lock adds: what an expand decided is still right when it acts.

  // A CreateVolume that may give h a negative capacity; the driver does not
  // check for that.
  predicate CreatesNegative(req: Request, h: Handle) {
    && Provisionable(req) && LabelOf(req.name) != "" && SpaceMatches(req.parameters.value.space, h.spaceID)
    && RequestedCapacity(req.range) < 0
  }

  ghost predicate MayStartNegative(reqs: set<Request>, h: Handle) {
    exists r :: r in reqs && CreatesNegative(r, h)
  }

  // An expand that may resize h: without a required capacity it only does so
  // from a negative one.
  predicate Resizes(req: Request, h: Handle, negative: bool) {
    Expands(req, h) && (Required(req.range) > 0 || negative)
  }

  // Resizes of h to different capacities take the same lock.
  ghost predicate ResizesAgree(reqs: set<Request>, h: Handle) {
    var negative := MayStartNegative(reqs, h);
    forall a, b | a in reqs && b in reqs && Resizes(a, h, negative) && Resizes(b, h, negative) ::
      RequestedCapacity(a.range) == RequestedCapacity(b.range) || a.volumeID == b.volumeID
  }

  // And so do all expands of h that require different capacities.
  ghost predicate ReportsAgree(reqs: set<Request>, h: Handle) {
    && ResizesAgree(reqs, h)
    && forall a, b | a in reqs && b in reqs && Expands(a, h) && Expands(b, h) ::
         Required(a.range) == Required(b.range) || a.volumeID == b.volumeID
  }

  // What holds of one expand and the capacity

  // A resize about to be sent does not shrink. One without a required capacity
  // has seen a negative capacity, or it is done already.
  ghost predicate ResizeFits(b: Backend, h: Handle, rpc: Rpc, negative: bool) {
    Expands(rpc.req, h) && rpc.pc.Locked? && rpc.pc.at.WriteQuota? ==>
      var capacity := RequestedCapacity(rpc.req.range);
      && rpc.pc.at == WriteQuota(h, capacity) && Resizes(rpc.req, h, negative) && !Unborn(b, h)
      && (Live(b, h) ==>
            && CapacityOf(b, h) <= capacity
            && (Required(rpc.req.range) == 0 ==> CapacityOf(b, h) < 0 || CapacityOf(b, h) == capacity))
  }

  // A capacity about to be reported is the capacity, and at least the required one.
  ghost predicate ReportFits(b: Backend, h: Handle, rpc: Rpc) {
    Expands(rpc.req, h) && rpc.pc.Locked? && rpc.pc.at.Unlock? && rpc.pc.at.response.VolumeExpanded? ==>
      var capacity := rpc.pc.at.response.capacity;
      !Unborn(b, h) && Required(rpc.req.range) <= capacity && (Live(b, h) ==> CapacityOf(b, h) == capacity)
  }

  ghost predicate NonNegative(b: Backend, h: Handle, negative: bool) {
    Live(b, h) && !negative ==> CapacityOf(b, h) >= 0
  }

  // The reports matter only where requests agree on them.
  ghost predicate Tracked(s: System, reqs: set<Request>, h: Handle)
    requires Valid(s.w.b)
  {
    var negative := MayStartNegative(reqs, h);
    && LocksExact(s) && Consistent(s, reqs, h) && NonNegative(s.w.b, h, negative)
    && (forall id | id in s.rpcs :: ResizeFits(s.w.b, h, s.rpcs[id], negative))
    && (ReportsAgree(reqs, h) ==> forall id | id in s.rpcs :: ReportFits(s.w.b, h, s.rpcs[id]))
  }

  // Only the call that creates brings a filesystem to life.
  lemma OthersBearNothing(env: Env, w: World, req: Request, pc: Pc, d: Delivery, h: Handle)
    requires Valid(w.b) && !Live(w.b, h) && !(pc.Provisioning? && pc.step.CallCreate?)
    ensures !Live(StepRpc(env, w, req, pc, d).0.b, h)
  {
    hide IndexOk, QuotasOk, Activate, CsiVolume, PublishedNodeIDs, BeginStep;
    if pc.Begin? {
      BeginKeepsBackend(w, req, d);
    }
  }

  lemma BeginKeepsBackend(w: World, req: Request, d: Delivery)
    ensures BeginStep(w, req, d).0.b == w.b
  {
    hide ParseVolumeHandle;
  }

  // A filesystem is created with the capacity that the request asks for.
  lemma BornAsAsked(env: Env, w: World, rpc: Rpc, d: Delivery, h: Handle)
    requires Valid(w.b) && Placed(w.b, h, rpc) && !Live(w.b, h)
    requires Live(StepRpc(env, w, rpc.req, rpc.pc, d).0.b, h)
    ensures Provisionable(rpc.req) && LabelOf(rpc.req.name) != ""
            && SpaceMatches(rpc.req.parameters.value.space, h.spaceID)
            && CapacityOf(StepRpc(env, w, rpc.req, rpc.pc, d).0.b, h) == RequestedCapacity(rpc.req.range)
  {
    hide IndexOk, QuotasOk, LabelOf;
    if !(rpc.pc.Provisioning? && rpc.pc.step.CallCreate?) {
      OthersBearNothing(env, w, rpc.req, rpc.pc, d, h);
    }
  }

  lemma StepKeepsSign(env: Env, w: World, rpc: Rpc, d: Delivery, h: Handle, reqs: set<Request>)
    requires Valid(w.b) && Placed(w.b, h, rpc) && rpc.req in reqs && NonNegative(w.b, h, MayStartNegative(reqs, h))
    ensures NonNegative(StepRpc(env, w, rpc.req, rpc.pc, d).0.b, h, MayStartNegative(reqs, h))
  {
    hide IndexOk, QuotasOk, StepRpc, LabelOf;
    var b' := StepRpc(env, w, rpc.req, rpc.pc, d).0.b;
    if Live(b', h) {
      if Live(w.b, h) {
        CapacityGrows(env, w, rpc.req, rpc.pc, d, h);
      } else {
        BornAsAsked(env, w, rpc, d, h);
      }
    }
  }

  // The steps of an expand itself

  lemma ReadQuotaDecides(b: Backend, req: Request, h: Handle, d: Delivery, negative: bool)
    requires Valid(b) && Expands(req, h) && NonNegative(b, h, negative)
    ensures var rpc := Rpc(req, Locked(LockedStep(b, req, ReadQuota(h), d).1));
            ResizeFits(b, h, rpc, negative) && ReportFits(b, h, rpc)
  {
    if Live(b, h) {
      QuotaIsUnique(b, h.filesystemID);
      LiveIsBorn(b, h);
    }
  }

  lemma WriteQuotaSets(b: Backend, req: Request, h: Handle, capacity: int, d: Delivery, negative: bool)
    requires Valid(b) && Expands(req, h) && ResizeFits(b, h, Rpc(req, Locked(WriteQuota(h, capacity))), negative)
    ensures var (b', next) := LockedStep(b, req, WriteQuota(h, capacity), d);
            && Valid(b') && ReportFits(b', h, Rpc(req, Locked(next))) && !next.WriteQuota?
            && (Live(b', h) ==> Live(b, h) && (CapacityOf(b', h) == CapacityOf(b, h) || CapacityOf(b', h) == capacity))
  {
    hide IndexOk, QuotasOk;
    UpdateFilesystemKeepsValid(b, h.spaceID, h.filesystemID, Some(capacity));
  }

  lemma StepIsTracked(env: Env, w: World, rpc: Rpc, d: Delivery, h: Handle, negative: bool)
    requires Valid(w.b) && Fits(rpc.req, rpc.pc) && NonNegative(w.b, h, negative)
    requires ResizeFits(w.b, h, rpc, negative)
    ensures var (w', pc') := StepRpc(env, w, rpc.req, rpc.pc, d);
            ResizeFits(w'.b, h, Rpc(rpc.req, pc'), negative) && ReportFits(w'.b, h, Rpc(rpc.req, pc'))
  {
    hide IndexOk, QuotasOk;
    if Expands(rpc.req, h) {
      match rpc.pc
      case Locked(ReadQuota(_)) => ReadQuotaDecides(w.b, rpc.req, h, d, negative);
      case Locked(WriteQuota(_, capacity)) => WriteQuotaSets(w.b, rpc.req, h, capacity, d, negative);
      case _ =>
    }
  }

  // The steps of others

  lemma TrackedKept(b: Backend, b': Backend, h: Handle, rpc: Rpc, negative: bool, policy: bool)
    requires Valid(b) && Valid(b') && Framed(b, b', h, policy, false) && ResizeFits(b, h, rpc, negative)
    ensures ResizeFits(b', h, rpc, negative)
    ensures ReportFits(b, h, rpc) ==> ReportFits(b', h, rpc)
  {
    hide IndexOk, QuotasOk;
  }

  lemma ResizeKeepsTracked(env: Env, s: System, reqs: set<Request>, id: nat, d: Delivery, h: Handle, other: nat)
    requires Valid(s.w.b) && Tracked(s, reqs, h) && ResizesAgree(reqs, h)
    requires id in s.rpcs && other in s.rpcs && other != id && TouchesCapacity(s.rpcs[id].pc, h)
    ensures var b' := StepRpc(env, s.w, s.rpcs[id].req, s.rpcs[id].pc, d).0.b;
            && ResizeFits(b', h, s.rpcs[other], MayStartNegative(reqs, h))
            && (ReportsAgree(reqs, h) ==> ReportFits(b', h, s.rpcs[other]))
  {
    hide IndexOk, QuotasOk, MayStartNegative, Placed;
    var rpc, bystander := s.rpcs[id], s.rpcs[other];
    assert Fits(rpc.req, rpc.pc) && Expands(rpc.req, h);
    StepFrame(env, s.w, rpc.req, rpc.pc, d, h);
    WriteQuotaSets(s.w.b, rpc.req, h, rpc.pc.at.capacity, d, MayStartNegative(reqs, h));
    if bystander.pc.Locked? && Expands(bystander.req, h) {
      HoldersDiffer(s, id, other);
    }
  }

  lemma OthersAreTracked(env: Env, s: System, reqs: set<Request>, id: nat, d: Delivery, h: Handle, other: nat)
    requires Valid(s.w.b) && Tracked(s, reqs, h) && ResizesAgree(reqs, h)
    requires id in s.rpcs && other in s.rpcs && other != id
    ensures var b' := StepRpc(env, s.w, s.rpcs[id].req, s.rpcs[id].pc, d).0.b;
            && ResizeFits(b', h, s.rpcs[other], MayStartNegative(reqs, h))
            && (ReportsAgree(reqs, h) ==> ReportFits(b', h, s.rpcs[other]))
  {
    hide IndexOk, QuotasOk, StepRpc, ResizeFits, ReportFits, ReportsAgree, ResizesAgree, MayStartNegative, Consistent;
    var rpc, bystander := s.rpcs[id], s.rpcs[other];
    if TouchesCapacity(rpc.pc, h) {
      ResizeKeepsTracked(env, s, reqs, id, d, h, other);
    } else {
      StepFrame(env, s.w, rpc.req, rpc.pc, d, h);
      TrackedKept(s.w.b, StepRpc(env, s.w, rpc.req, rpc.pc, d).0.b, h, bystander, MayStartNegative(reqs, h),
                  TouchesPolicy(rpc.pc, h));
    }
  }

  lemma ApplyKeepsTracked(env: Env, s: System, e: Event, reqs: set<Request>, h: Handle)
    requires Valid(s.w.b) && Tracked(s, reqs, h) && ResizesAgree(reqs, h) && (e.Start? ==> e.req in reqs)
    ensures Tracked(Apply(env, s, e), reqs, h)
  {
    hide IndexOk, QuotasOk, StepRpc, ReportsAgree, ResizesAgree, MayStartNegative, ResizeFits, ReportFits, Placed, Fits;
    ApplyKeepsLocksExact(env, s, e);
    ApplyKeepsConsistent(env, s, e, reqs, h);
    if e.Step? && e.id in s.rpcs {
      var rpc := s.rpcs[e.id];
      StepKeepsSign(env, s.w, rpc, e.d, h, reqs);
      StepIsTracked(env, s.w, rpc, e.d, h, MayStartNegative(reqs, h));
      forall other | other in s.rpcs && other != e.id
        ensures ResizeFits(Apply(env, s, e).w.b, h, s.rpcs[other], MayStartNegative(reqs, h))
        ensures ReportsAgree(reqs, h) ==> ReportFits(Apply(env, s, e).w.b, h, s.rpcs[other])
      {
        OthersAreTracked(env, s, reqs, e.id, e.d, h, other);
      }
    } else if e.Start? {
      BeginsTracked(s.w.b, e.req, h, MayStartNegative(reqs, h));
    }
  }

  lemma BeginsTracked(b: Backend, req: Request, h: Handle, negative: bool)
    ensures ResizeFits(b, h, Rpc(req, Begin), negative) && ReportFits(b, h, Rpc(req, Begin))
  {
  }

  lemma {:induction false} TrackedAlong(env: Env, s: System, events: seq<Event>, reqs: set<Request>, h: Handle)
    requires Valid(s.w.b) && Tracked(s, reqs, h) && ResizesAgree(reqs, h) && Draws(events, reqs)
    ensures Tracked(Run(env, s, events), reqs, h)
    decreases events
  {
    hide IndexOk, QuotasOk, StepRpc, Tracked, ResizesAgree;
    if events != [] {
      ApplyKeepsTracked(env, s, events[0], reqs, h);
      TrackedAlong(env, Apply(env, s, events[0]), events[1..], reqs, h);
    }
  }

  // The runs to consider start without a negative capacity.
  ghost predicate InitialQuota(s: System, h: Handle) {
    Initial(s) && NonNegative(s.w.b, h, false)
  }

  // No resize about to be sent shrinks; these are the ones that the API accepts.
  ghost predicate ResizesFit(s: System, h: Handle) {
    Live(s.w.b, h) ==>
      forall id | id in s.rpcs && TouchesCapacity(s.rpcs[id].pc, h) :: CapacityOf(s.w.b, h) <= s.rpcs[id].pc.at.capacity
  }

  // An expand about to return success
  predicate Reports(rpc: Rpc, h: Handle) {
    Expands(rpc.req, h) && rpc.pc.Locked? && rpc.pc.at.Unlock? && rpc.pc.at.response.VolumeExpanded?
  }

  // What such expands report is the capacity.
  ghost predicate ReportsHold(s: System, h: Handle) {
    Live(s.w.b, h) ==>
      forall id | id in s.rpcs && Reports(s.rpcs[id], h) :: s.rpcs[id].pc.at.response.capacity == CapacityOf(s.w.b, h)
  }

  lemma AgreementMakesResizesFit(env: Env, s: System, events: seq<Event>, reqs: set<Request>, h: Handle)
    requires InitialQuota(s, h) && Draws(events, reqs) && ResizesAgree(reqs, h)
    ensures ResizesFit(Run(env, s, events), h)
  {
    hide IndexOk, QuotasOk, StepRpc, ResizesAgree, Run, Placed;
    TrackedAlong(env, s, events, reqs, h);
    var s' := Run(env, s, events);
    forall id | Live(s'.w.b, h) && id in s'.rpcs && TouchesCapacity(s'.rpcs[id].pc, h)
      ensures CapacityOf(s'.w.b, h) <= s'.rpcs[id].pc.at.capacity
    {
      assert Fits(s'.rpcs[id].req, s'.rpcs[id].pc) && ResizeFits(s'.w.b, h, s'.rpcs[id], MayStartNegative(reqs, h));
    }
  }

  // When an expand is about to return success, the capacity it reports is the
  // capacity of the filesystem and of its root quota.
  lemma ExpandIsReported(env: Env, s: System, events: seq<Event>, reqs: set<Request>, h: Handle)
    requires InitialQuota(s, h) && Draws(events, reqs) && ReportsAgree(reqs, h)
    ensures var s' := Run(env, s, events);
            && ReportsHold(s', h)
            && (Live(s'.w.b, h) ==>
                  forall id | id in s'.rpcs && Reports(s'.rpcs[id], h) ::
                    RootCapacity(s'.w.b, h) == Some(s'.rpcs[id].pc.at.response.capacity))
  {
    hide IndexOk, QuotasOk, StepRpc, Run, ParseVolumeHandle, ReportsAgree, RootCapacity, Placed;
    assert ResizesAgree(reqs, h) by {
      ReportersResize(reqs, h);
    }
    TrackedAlong(env, s, events, reqs, h);
    var s' := Run(env, s, events);
    if Live(s'.w.b, h) {
      RootCapacityIsCapacity(s'.w.b, h);
    }
  }

  lemma ReportersResize(reqs: set<Request>, h: Handle)
    requires ReportsAgree(reqs, h)
    ensures ResizesAgree(reqs, h)
  {
  }
}
