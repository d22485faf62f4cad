// The squash policy over all runs, the other direction: for every set of requests
// that does not agree there is a run in which a CreateVolume is about to return
// success while another squash policy is in place.
module SquashRaces {
  import opened Wrappers
  import opened Handles
  import opened Labels
  import opened NfsModel
  import opened LinodeContract
  import opened Transport
  import opened AccessPolicies
  import opened ControllerSteps
  import opened VolumeFrames
  import opened Ownership
  import opened PolicyKnowledge
  import opened PolicySafety
  import opened SquashSafety
  import opened Witnesses
  import opened LostUpdates

  // Everybody about to succeed has the squash policy it asked for in place.
  ghost predicate SquashesHold(s: System, h: Handle)
    requires Valid(s.w.b)
  {
    Live(s.w.b, h) ==>
      forall id | id in s.rpcs && Waits(s.rpcs[id], h) ::
        Some(s.w.b.policies[h.filesystemID].squash) == SquashOf(s.rpcs[id].req)
  }

  // The same for the whole goal.
  ghost predicate GoalsHold(env: Env, p: Policy, s: System, h: Handle)
    requires Valid(s.w.b)
  {
    Live(s.w.b, h) ==>
      forall id | id in s.rpcs && Waits(s.rpcs[id], h) ::
        AtGoal(env.mode, p, s.w.b.policies[h.filesystemID], SquashOf(s.rpcs[id].req))
  }

  ghost predicate SquashesAlwaysHold(env: Env, reqs: set<Request>, h: Handle, title: string) {
    forall s, events | Initial(s) && Draws(events, reqs) && Labelled(Run(env, s, events).w.b, h, title) ::
      SquashesHold(Run(env, s, events), h)
  }

  ghost predicate GoalsAlwaysHold(env: Env, reqs: set<Request>, h: Handle, title: string) {
    forall s, events | Initial(s) && Draws(events, reqs) && Labelled(Run(env, s, events).w.b, h, title) ::
      GoalsHold(env, PolicyAt(s.w.b, h, title), Run(env, s, events), h)
  }

  // An operation decided before a squash update writes back the old squash policy,
  // while the CreateVolume is about to return success.
  lemma StaleOperationUndoesSquash(env: Env, r: Request, a: Request, h: Handle, title: string)
    returns (s: System, events: seq<Event>)
    requires title != "" && Rewrites(r, h, title) && OpOf(a, h).Some?
    ensures Initial(s) && Draws(events, {r, a}) && Live(Run(env, s, events).w.b, h)
    ensures Labelled(Run(env, s, events).w.b, h, title)
    ensures var s' := Run(env, s, events);
            && 0 in s'.rpcs && s'.rpcs[0].req == r && Waits(s'.rpcs[0], h)
            && Some(s'.w.b.policies[h.filesystemID].squash) != SquashOf(r)
  {
    hide IndexOk, QuotasOk, StepRpc, Run, Commits, LabelOf, OpOf, Intended, SquashUpdate, SpaceMatches;
    var first, p, f, mtlsMode;
    s, first, p, f, mtlsMode := RewriterAndOperationDecide(env, r, a, h, title);
    var s1, e0, e1 := Run(env, s, first), Step(0, Delivered), Step(1, Delivered);
    WritesSquash(env, s1, 0, h, f, mtlsMode, p, r.parameters.value.squash.value);
    RunOne(env, s1, e0);
    var s2 := Apply(env, s1, e0);
    Writes(env, s2, 1, h, p);
    RunOne(env, s2, e1);
    RunInTwo(env, s1, [e0], [e1]);
    RunInTwo(env, s, first, [e0] + [e1]);
    events := first + ([e0] + [e1]);
  }

  // A space that both requests name, if there is one
  function CommonLabel(r: Request, q: Request): string
    requires r.CreateRequest? && r.parameters.Some? && q.CreateRequest? && q.parameters.Some?
  {
    var first := SpaceLabelFor(r.parameters.value.space);
    if first != "" then first else SpaceLabelFor(q.parameters.value.space)
  }

  // What a request finds, it finds again after its filesystem became active and
  // its policy was written.
  lemma FoundAgain(env: Env, b: Backend, b': Backend, req: Request, h: Handle, policy: bool)
    requires Valid(b) && Valid(b') && Finds(env, b, req, h) && Framed(b, b', h, policy, false) && Live(b', h)
    ensures Finds(env, b', req, h)
  {
    hide IndexOk, QuotasOk, LabelOf;
  }

  lemma BothFind(env: Env, r: Request, q: Request, h: Handle, title: string) returns (s: System)
    requires title != "" && Meet(r, q, h, title)
    ensures Initial(s) && s.rpcs == map[] && Finds(env, s.w.b, r, h) && Finds(env, s.w.b, q, h)
    ensures Labelled(s.w.b, h, title)
    ensures SquashUpdate(env.mode, s.w.b.policies[h.filesystemID], r.parameters.value.squash.value).Some?
  {
    hide Valid, LabelOf;
    var parameters := r.parameters.value;
    OpeningIsInitial(env, h, title, TagList(parameters), CommonLabel(r, q), OtherSquash(parameters.squash.value), [],
                     {});
    s := Opening(env, h, title, TagList(parameters), CommonLabel(r, q), OtherSquash(parameters.squash.value), [], {});
  }

  lemma FinderAsks(env: Env, b: Backend, r: Request, h: Handle)
    requires Valid(b) && Finds(env, b, r, h)
    ensures Live(b, h) && h.filesystemID in b.policies && HandleOf(ActiveFilesystem(b, h)) == h
    ensures r.CreateRequest? && r.parameters.Some? && r.parameters.value.squash.Some?
  {
    hide QuotasOk;
  }

  // One whole squash update, up to its wait
  lemma ReachesWait(env: Env, s: System, id: nat, r: Request, h: Handle) returns (events: seq<Event>)
    requires Valid(s.w.b) && Finds(env, s.w.b, r, h) && id !in s.rpcs
    requires SquashUpdate(env.mode, s.w.b.policies[h.filesystemID], r.parameters.value.squash.value).Some?
    ensures Draws(events, {r})
    ensures var s' := Run(env, s, events);
            && s'.rpcs.Keys == s.rpcs.Keys + {id} && (forall i | i in s.rpcs :: s'.rpcs[i] == s.rpcs[i])
            && s'.rpcs[id].req == r && Waits(s'.rpcs[id], h)
            && Live(s'.w.b, h) && s'.w.b.policies[h.filesystemID].squash == r.parameters.value.squash.value
            && Labelled(s'.w.b, h, s.w.b.filesystems[h.filesystemID].nfsLabel)
            && forall q | Finds(env, s.w.b, q, h) :: Finds(env, s'.w.b, q, h)
  {
    hide IndexOk, QuotasOk, StepRpc, Run, Commits, Activate, LabelOf, Finds;
    FinderAsks(env, s.w.b, r, h);
    var p, last := s.w.b.policies[h.filesystemID], Step(id, Delivered);
    assert PolicyOk(s.w.b, p);
    var first := ReachesSquash(env, s, id, r, h);
    var s1 := Run(env, s, first);
    WritesSquash(env, s1, id, h, ActiveFilesystem(s.w.b, h), s.w.b.mtlsMode, p, r.parameters.value.squash.value);
    RunOne(env, s1, last);
    RunInTwo(env, s, first, [last]);
    events := first + [last];
    var s2 := Run(env, s, events);
    forall q | Finds(env, s.w.b, q, h) ensures Finds(env, s2.w.b, q, h) {
      WaitForFilesystemFrame(s.w.b, h, h);
      FoundAgain(env, s.w.b, s1.w.b, q, h, false);
      StepFrame(env, s1.w, s1.rpcs[id].req, s1.rpcs[id].pc, Delivered, h);
      FoundAgain(env, s1.w.b, s2.w.b, q, h, true);
    }
  }

  // Two requests for different squash policies: the first is about to return
  // success when the second has replaced its squash policy.
  lemma TwoSquashesClash(env: Env, r: Request, q: Request, h: Handle, title: string)
    returns (s: System, events: seq<Event>)
    requires title != "" && Meet(r, q, h, title) && SquashOf(r) != SquashOf(q)
    ensures Initial(s) && Draws(events, {r, q}) && Live(Run(env, s, events).w.b, h)
    ensures Labelled(Run(env, s, events).w.b, h, title)
    ensures var s' := Run(env, s, events);
            && 0 in s'.rpcs && s'.rpcs[0].req == r && Waits(s'.rpcs[0], h)
            && Some(s'.w.b.policies[h.filesystemID].squash) != SquashOf(r)
  {
    hide IndexOk, QuotasOk, StepRpc, Run, Commits, LabelOf, Finds, Waits;
    s := BothFind(env, r, q, h, title);
    FinderAsks(env, s.w.b, r, h);
    var one := ReachesWait(env, s, 0, r, h);
    var s1 := Run(env, s, one);
    FinderAsks(env, s1.w.b, q, h);
    var two := ReachesWait(env, s1, 1, q, h);
    RunInTwo(env, s, one, two);
    events := one + two;
  }

  // In every run over a set of requests, each CreateVolume that is about to return
  // success has the squash policy that it asked for in place, exactly when those
  // who may come to reconcile one filesystem ask for the same one, and nobody
  // operates on its nodes then. The same holds for the whole goal: label and
  // protocols of the first policy, and its nodes or, in space mode, none.
  lemma SquashesHoldIffAgree(env: Env, reqs: set<Request>, h: Handle, title: string)
    requires title != ""
    ensures SquashesAgree(reqs, h, title) <==> SquashesAlwaysHold(env, reqs, h, title)
    ensures SquashesAgree(reqs, h, title) <==> GoalsAlwaysHold(env, reqs, h, title)
  {
    hide IndexOk, QuotasOk, StepRpc, Run, OpOf, Rewrites, Meet, Waits;
    if SquashesAgree(reqs, h, title) {
      forall s, events | Initial(s) && Draws(events, reqs) && Labelled(Run(env, s, events).w.b, h, title)
        ensures GoalsHold(env, PolicyAt(s.w.b, h, title), Run(env, s, events), h)
        ensures SquashesHold(Run(env, s, events), h)
      {
        AgreementHolds(env, s, events, reqs, h, title);
      }
    } else {
      var s, events := DisagreementUndoes(env, reqs, h, title);
      var s' := Run(env, s, events);
      assert Waits(s'.rpcs[0], h) && !SquashesHold(s', h);
      assert !GoalsHold(env, PolicyAt(s.w.b, h, title), s', h);
    }
  }

  lemma AgreementHolds(env: Env, s: System, events: seq<Event>, reqs: set<Request>, h: Handle, title: string)
    requires Initial(s) && Draws(events, reqs) && Labelled(Run(env, s, events).w.b, h, title)
    requires SquashesAgree(reqs, h, title)
    ensures GoalsHold(env, PolicyAt(s.w.b, h, title), Run(env, s, events), h)
    ensures SquashesHold(Run(env, s, events), h)
  {
    hide IndexOk, QuotasOk, StepRpc, Run, SquashesAgree;
    var s' := Run(env, s, events);
    forall id | Live(s'.w.b, h) && id in s'.rpcs && Waits(s'.rpcs[id], h)
      ensures AtGoal(env.mode, PolicyAt(s.w.b, h, title), s'.w.b.policies[h.filesystemID], SquashOf(s'.rpcs[id].req))
    {
      SuccessfulSquashStays(env, s, events, reqs, h, title, id);
    }
  }

  lemma DisagreementUndoes(env: Env, reqs: set<Request>, h: Handle, title: string)
    returns (s: System, events: seq<Event>)
    requires title != "" && !SquashesAgree(reqs, h, title)
    ensures Initial(s) && Draws(events, reqs) && Live(Run(env, s, events).w.b, h)
    ensures Labelled(Run(env, s, events).w.b, h, title)
    ensures var s' := Run(env, s, events);
            && 0 in s'.rpcs && Waits(s'.rpcs[0], h)
            && Some(s'.w.b.policies[h.filesystemID].squash) != SquashOf(s'.rpcs[0].req)
  {
    hide IndexOk, QuotasOk, StepRpc, Run, OpOf, Rewrites, Waits;
    if !RewritesAreAlone(reqs, h, title) {
      var r, a :| r in reqs && a in reqs && Rewrites(r, h, title) && OpOf(a, h).Some?;
      s, events := StaleOperationUndoesSquash(env, r, a, h, title);
    } else {
      var r, q :| r in reqs && q in reqs && Meet(r, q, h, title) && SquashOf(r) != SquashOf(q);
      s, events := TwoSquashesClash(env, r, q, h, title);
    }
  }
}
