// The answers of controller RPCs over all runs: each comes from a step of the
// run, at which what it says was true.
module RunAnswers {
  import opened Wrappers
  import opened Handles
  import opened LinodeContract
  import opened Status
  import opened ControllerSteps
  import opened LockSafety
  import opened VolumeFrames
  import opened Ownership
  import opened PolicyKnowledge
  import opened PolicySafety
  import opened QuotaSafety
  import opened Witnesses
  import opened StepAnswers

  // The state before the k-th event
  ghost function At(env: Env, s: System, events: seq<Event>, k: nat): (s': System)
    requires Valid(s.w.b) && k <= |events|
    ensures Valid(s'.w.b)
  {
    Run(env, s, events[..k])
  }

  lemma NextState(env: Env, s: System, events: seq<Event>, k: nat)
    requires Valid(s.w.b) && k < |events|
    ensures At(env, s, events, k + 1) == Apply(env, At(env, s, events, k), events[k])
  {
    hide IndexOk, QuotasOk, Run, StepRpc, Apply;
    assert events[..k + 1] == events[..k] + [events[k]];
    RunInTwo(env, s, events[..k], [events[k]]);
    RunOne(env, At(env, s, events, k), events[k]);
  }

  // The k-th event is the step by which this RPC returns.
  ghost predicate ReturnsAt(env: Env, s: System, events: seq<Event>, id: nat, rpc: Rpc, k: nat)
    requires Valid(s.w.b)
  {
    && k < |events| && events[k].Step? && events[k].id == id
    && var s' := At(env, s, events, k);
       && id in s'.rpcs && s'.rpcs[id].req == rpc.req && !s'.rpcs[id].pc.Returned?
       && StepRpc(env, s'.w, rpc.req, s'.rpcs[id].pc, events[k].d).1 == rpc.pc
  }

  lemma {:induction false} ReturnedByStep(env: Env, s: System, events: seq<Event>, id: nat, n: nat) returns (k: nat)
    requires Valid(s.w.b) && s.rpcs == map[] && n <= |events|
    requires id in At(env, s, events, n).rpcs && At(env, s, events, n).rpcs[id].pc.Returned?
    ensures k < n && ReturnsAt(env, s, events, id, At(env, s, events, n).rpcs[id], k)
    decreases n
  {
    hide IndexOk, QuotasOk, StepRpc;
    if n == 0 {
      assert false;
    } else {
      NextState(env, s, events, n - 1);
      var before := At(env, s, events, n - 1);
      if id in before.rpcs && before.rpcs[id].pc.Returned? {
        k := ReturnedByStep(env, s, events, id, n - 1);
        ReturnedStays(env, before, events[n - 1], id);
      } else {
        k := n - 1;
      }
    }
  }

  lemma ReturnedStays(env: Env, s: System, e: Event, id: nat)
    requires Valid(s.w.b) && id in s.rpcs && s.rpcs[id].pc.Returned?
    ensures id in Apply(env, s, e).rpcs && Apply(env, s, e).rpcs[id] == s.rpcs[id]
  {
    hide IndexOk, QuotasOk;
  }

  ghost predicate AllRelease(s: System) {
    forall id | id in s.rpcs :: Releases(s.rpcs[id].req, s.rpcs[id].pc)
  }

  lemma {:induction false} ReleasesAlong(env: Env, s: System, events: seq<Event>, reqs: set<Request>, h: Handle)
    requires Valid(s.w.b) && Consistent(s, reqs, h) && AllRelease(s) && Draws(events, reqs)
    ensures Consistent(Run(env, s, events), reqs, h) && AllRelease(Run(env, s, events))
    decreases events
  {
    hide IndexOk, QuotasOk, StepRpc, Placed, Fits, Releases;
    if events != [] {
      ApplyKeepsConsistent(env, s, events[0], reqs, h);
      ApplyKeepsReleases(env, s, events[0]);
      ReleasesAlong(env, Apply(env, s, events[0]), events[1..], reqs, h);
    }
  }

  lemma ApplyKeepsReleases(env: Env, s: System, e: Event)
    requires Valid(s.w.b) && AllRelease(s) && forall id | id in s.rpcs :: Fits(s.rpcs[id].req, s.rpcs[id].pc)
    ensures AllRelease(Apply(env, s, e))
  {
    hide IndexOk, QuotasOk, StepRpc, Fits;
    if e.Step? && e.id in s.rpcs {
      StepReleases(env, s.w, s.rpcs[e.id].req, s.rpcs[e.id].pc, e.d);
    }
  }

  // In every run, whatever an RPC has answered, it did so in a step of the run
  // from which this answer may come: success of a publish or an expand only from
  // the release of its lock, of an unpublish from there or for an empty node ID.
  lemma AnswersComeFromSteps(env: Env, s: System, events: seq<Event>, id: nat, h: Handle) returns (k: nat)
    requires Initial(s) && id in Run(env, s, events).rpcs && Run(env, s, events).rpcs[id].pc.Returned?
    ensures var rpc := Run(env, s, events).rpcs[id];
            && ReturnsAt(env, s, events, id, rpc, k)
            && Origin(rpc.req, At(env, s, events, k).rpcs[id].pc, events[k].d, rpc.pc.response)
            && Fits(rpc.req, At(env, s, events, k).rpcs[id].pc)
            && Placed(At(env, s, events, k).w.b, h, At(env, s, events, k).rpcs[id])
  {
    hide IndexOk, QuotasOk, StepRpc, Run, Origin, Fits, Placed, Releases;
    assert events[..|events|] == events;
    k := ReturnedByStep(env, s, events, id, |events|);
    var reqs := set e | e in events && e.Start? :: e.req;
    assert Draws(events[..k], reqs);
    ReleasesAlong(env, s, events[..k], reqs, h);
    var s' := At(env, s, events, k);
    AnswersHaveOrigins(env, s'.w, s'.rpcs[id], events[k].d, h);
  }

  // Another RPC holds the key that this request wants.
  ghost predicate Contended(s: System, id: nat, req: Request) {
    LocksVolume(req) &&
    exists other | other != id && Holds(s, other) ::
      LocksVolume(s.rpcs[other].req) && s.rpcs[other].req.volumeID == req.volumeID
  }

  // Aborted means contention: another RPC held the key at that moment.
  lemma AbortedMeansContention(env: Env, s: System, events: seq<Event>, id: nat)
    requires Initial(s) && id in Run(env, s, events).rpcs
    requires Run(env, s, events).rpcs[id].pc == Returned(Error(Aborted))
    ensures exists k: nat ::
              && ReturnsAt(env, s, events, id, Run(env, s, events).rpcs[id], k)
              && Contended(At(env, s, events, k), id, Run(env, s, events).rpcs[id].req)
  {
    hide IndexOk, QuotasOk, StepRpc, Run, Fits, Placed;
    var k := AnswersComeFromSteps(env, s, events, id, Handle(0, 0));
    var rpc, s' := Run(env, s, events).rpcs[id], At(env, s, events, k);
    ContendedKey(env, s, events, id, rpc, k);
    LockedKeysAreHeldKeys(env, s, events[..k]);
    var other :| Holds(s', other) && s'.rpcs[other].req.volumeID == rpc.req.volumeID;
  }

  lemma ContendedKey(env: Env, s: System, events: seq<Event>, id: nat, rpc: Rpc, k: nat)
    requires Valid(s.w.b) && ReturnsAt(env, s, events, id, rpc, k) && rpc.pc == Returned(Error(Aborted))
    requires Origin(rpc.req, At(env, s, events, k).rpcs[id].pc, events[k].d, Error(Aborted))
    ensures LocksVolume(rpc.req) && rpc.req.volumeID in At(env, s, events, k).w.locks
    ensures At(env, s, events, k).rpcs[id].pc == Begin
  {
    hide IndexOk, QuotasOk, StepRpc, Run;
    TakenKeyAborts(env, At(env, s, events, k).w, rpc.req, events[k].d);
  }

  // What an answered success said was true when it was given

  // A publish that has succeeded had its node listed in the enabled policy, an
  // unpublish that has succeeded on this filesystem had its node not listed.
  ghost predicate WasEffective(env: Env, s: System, events: seq<Event>, id: nat, rpc: Rpc, h: Handle)
    requires Valid(s.w.b) && ChangesPolicy(rpc.req)
  {
    exists k: nat ::
      && ReturnsAt(env, s, events, id, rpc, k)
      && (Live(At(env, s, events, k).w.b, h) ==>
            Effective(rpc.req, At(env, s, events, k).w.b.policies[h.filesystemID]))
  }

  // In every run of safe requests, each success that a publish or unpublish for h
  // has answered was true of the policy when it was given.
  lemma AnsweredSuccessWasEffective(env: Env, s: System, events: seq<Event>, reqs: set<Request>, h: Handle,
                                    title: string, id: nat)
    requires Initial(s) && Draws(events, reqs) && PolicySafe(env, reqs, h, title)
    requires Live(Run(env, s, events).w.b, h) && Labelled(Run(env, s, events).w.b, h, title)
    requires id in Run(env, s, events).rpcs
    requires var rpc := Run(env, s, events).rpcs[id];
             ChangesPolicy(rpc.req) && OpOf(rpc.req, h).Some? && rpc.pc == Returned(Done(rpc.req))
    ensures WasEffective(env, s, events, id, Run(env, s, events).rpcs[id], h)
  {
    hide IndexOk, QuotasOk, StepRpc, Run, PolicySafe, OpOf, Fits, Placed, Effective;
    var rpc := Run(env, s, events).rpcs[id];
    var k := AnswersComeFromSteps(env, s, events, id, h);
    var s' := At(env, s, events, k);
    OpNodeIsGiven(rpc.req, h);
    assert events[..k] + events[k..] == events;
    RunInTwo(env, s, events[..k], events[k..]);
    History(env, s', events[k..], h);
    if Live(s'.w.b, h) {
      KnownAt(env, s, events[..k], reqs, h, title, id);
    }
  }

  lemma OpNodeIsGiven(req: Request, h: Handle)
    requires OpOf(req, h).Some?
    ensures req.nodeID != "" && Addresses(req, h)
  {
    EmptyIsNoHandle();
  }

  lemma KnownAt(env: Env, s: System, events: seq<Event>, reqs: set<Request>, h: Handle, title: string, id: nat)
    requires Initial(s) && Draws(events, reqs) && PolicySafe(env, reqs, h, title)
    requires Live(Run(env, s, events).w.b, h) && Labelled(Run(env, s, events).w.b, h, title)
    requires id in Run(env, s, events).rpcs
    requires var rpc := Run(env, s, events).rpcs[id];
             OpOf(rpc.req, h).Some? && rpc.pc == Locked(Unlock(Done(rpc.req)))
    ensures Effective(Run(env, s, events).rpcs[id].req, Run(env, s, events).w.b.policies[h.filesystemID])
  {
    hide IndexOk, QuotasOk, StepRpc, Run, PolicySafe, OpOf, Fits, Placed;
    SafeRunIsGuarded(env, s, events, reqs, h);
    var s' := Run(env, s, events);
    assert Knows(s'.w.b, h, s'.rpcs[id]);
  }

  // In every run, the capacity that an expand of h has answered was the root
  // quota when it was given.
  lemma AnsweredCapacityWasQuota(env: Env, s: System, events: seq<Event>, reqs: set<Request>, h: Handle, id: nat)
    requires InitialQuota(s, h) && Draws(events, reqs) && ReportsAgree(reqs, h) && id in Run(env, s, events).rpcs
    requires var rpc := Run(env, s, events).rpcs[id];
             Expands(rpc.req, h) && rpc.pc.Returned? && rpc.pc.response.VolumeExpanded?
    ensures exists k: nat ::
              && ReturnsAt(env, s, events, id, Run(env, s, events).rpcs[id], k)
              && var b := At(env, s, events, k).w.b;
                 (Live(b, h) ==> RootCapacity(b, h) == Some(Run(env, s, events).rpcs[id].pc.response.capacity))
  {
    hide IndexOk, QuotasOk, StepRpc, Run, ReportsAgree, Fits, Placed, RootCapacity, ParseVolumeHandle;
    var k := AnswersComeFromSteps(env, s, events, id, h);
    assert Draws(events[..k], reqs);
    ExpandIsReported(env, s, events[..k], reqs, h);
    assert Reports(At(env, s, events, k).rpcs[id], h);
  }
}
