// The other direction: for every set of requests that is not safe there is a run
// that loses an operation.
module LostUpdates {
  import opened Wrappers
  import opened Text
  import opened Handles
  import opened Labels
  import opened NfsModel
  import opened LinodeContract
  import opened Transport
  import opened AccessPolicies
  import opened ControllerSteps
  import opened Status
  import opened VolumeFrames
  import opened Ownership
  import opened PolicyKnowledge
  import opened PolicySafety
  import ProvisioningSafety
  import opened Witnesses

  // The policy of h, if it is live, is what the operations of the run make of it.
  ghost predicate Intact(env: Env, s: System, events: seq<Event>, h: Handle)
    requires Valid(s.w.b)
  {
    AdmissionAt(Run(env, s, events).w.b, h) == PerformAll(AdmissionAt(s.w.b, h), Commits(env, s, events, h))
  }

  ghost predicate NeverLoses(env: Env, reqs: set<Request>, h: Handle, title: string) {
    forall s, events | Initial(s) && Draws(events, reqs) && Live(Run(env, s, events).w.b, h)
                       && Labelled(Run(env, s, events).w.b, h, title) ::
      Intact(env, s, events, h)
  }

  lemma SafeIsIntact(env: Env, s: System, events: seq<Event>, reqs: set<Request>, h: Handle, title: string)
    requires Initial(s) && Draws(events, reqs) && Live(Run(env, s, events).w.b, h)
    requires Labelled(Run(env, s, events).w.b, h, title) && PolicySafe(env, reqs, h, title)
    ensures Intact(env, s, events, h)
  {
    hide IndexOk, QuotasOk, PolicySafe, StepRpc;
    NoLostUpdate(env, s, events, reqs, h);
    assert AdmissionOf(PolicyAt(s.w.b, h, title)).nodes == AdmissionAt(s.w.b, h).nodes;
  }

  // Building runs

  lemma {:induction false} CommitsInTwo(env: Env, s: System, first: seq<Event>, second: seq<Event>, h: Handle)
    requires Valid(s.w.b)
    ensures Commits(env, s, first + second, h) ==
            Commits(env, s, first, h) + Commits(env, Run(env, s, first), second, h)
    decreases first
  {
    hide IndexOk, QuotasOk, StepRpc, CommitOf;
    if first == [] {
      assert first + second == second;
    } else {
      assert (first + second)[1..] == first[1..] + second;
      CommitsInTwo(env, Apply(env, s, first[0]), first[1..], second, h);
    }
  }

  lemma CommitsOfOne(env: Env, s: System, e: Event, h: Handle)
    requires Valid(s.w.b)
    ensures Commits(env, s, [e], h) == AsList(CommitOf(s, e, h))
  {
    hide IndexOk, QuotasOk, StepRpc, CommitOf;
    assert [e][1..] == [];
    assert Commits(env, Apply(env, s, e), [], h) == [];
  }

  // A run of one RPC from s that ends in w and pc and performs no operation
  ghost predicate LeadsQuietly(env: Env, s: System, id: nat, req: Request, events: seq<Event>, w: World, pc: Pc,
                               h: Handle)
    requires Valid(s.w.b)
  {
    Draws(events, {req}) && Run(env, s, events) == Moved(s, id, req, w, pc) && Commits(env, s, events, h) == []
  }

  lemma Begins(env: Env, s: System, id: nat, req: Request, h: Handle) returns (events: seq<Event>)
    requires Valid(s.w.b) && id !in s.rpcs
    ensures LeadsQuietly(env, s, id, req, events, s.w, Begin, h)
  {
    hide IndexOk, QuotasOk, StepRpc, Run, Commits;
    events := [Start(id, req)];
    RunOne(env, s, events[0]);
    CommitsOfOne(env, s, events[0], h);
  }

  // One more step that is no write of a publish or unpublish
  lemma Goes(env: Env, s: System, id: nat, req: Request, events: seq<Event>, w: World, pc: Pc, h: Handle, w': World,
             pc': Pc)
    returns (longer: seq<Event>)
    requires Valid(s.w.b) && Valid(w.b) && LeadsQuietly(env, s, id, req, events, w, pc, h)
    requires StepRpc(env, w, req, pc, Delivered) == (w', pc') && !(pc.Locked? && pc.at.WritePolicy?)
    ensures LeadsQuietly(env, s, id, req, longer, w', pc', h)
  {
    hide IndexOk, QuotasOk, StepRpc, Run, Commits;
    var e := Step(id, Delivered);
    longer := Steps(env, s, events, id, req, w, pc, w', pc');
    CommitsInTwo(env, s, events, [e], h);
    CommitsOfOne(env, Run(env, s, events), e, h);
  }

  // Two different operations under different locks

  // Takes the lock and reads a policy on which the operation is not effective yet.
  lemma ReachesWrite(env: Env, s: System, id: nat, req: Request, h: Handle) returns (events: seq<Event>)
    requires Valid(s.w.b) && Live(s.w.b, h) && OpOf(req, h).Some? && CanStart(s, id, req)
    requires !Effective(req, s.w.b.policies[h.filesystemID])
    ensures LeadsQuietly(env, s, id, req, events, s.w.(locks := s.w.locks + {req.volumeID}),
                    Locked(WritePolicy(h, Intended(req, s.w.b.policies[h.filesystemID]))), h)
  {
    hide IndexOk, QuotasOk, StepRpc, Run, Commits, LeadsQuietly, OpOf;
    OpNode(req, h);
    var locked, read := s.w.(locks := s.w.locks + {req.volumeID}), Locked(ReadPolicy(h, NodeOf(req)));
    events := Begins(env, s, id, req, h);
    TakesLock(env, s.w, req, h);
    events := Goes(env, s, id, req, events, s.w, Begin, h, locked, read);
    ReadsPolicy(env, locked, req, h);
    events := Goes(env, s, id, req, events, locked, read, h, locked,
                   Locked(WritePolicy(h, Intended(req, s.w.b.policies[h.filesystemID]))));
  }

  lemma TakesLock(env: Env, w: World, req: Request, h: Handle)
    requires Valid(w.b) && OpOf(req, h).Some? && req.volumeID !in w.locks
    ensures StepRpc(env, w, req, Begin, Delivered) ==
            (w.(locks := w.locks + {req.volumeID}), Locked(ReadPolicy(h, NodeOf(req))))
  {
    hide IndexOk, QuotasOk, ParseVolumeHandle, Atoi;
    EmptyIsNoHandle();
  }

  lemma ReadsPolicy(env: Env, w: World, req: Request, h: Handle)
    requires Valid(w.b) && Live(w.b, h) && ChangesPolicy(req) && !Effective(req, w.b.policies[h.filesystemID])
    ensures StepRpc(env, w, req, Locked(ReadPolicy(h, NodeOf(req))), Delivered) ==
            (w, Locked(WritePolicy(h, Intended(req, w.b.policies[h.filesystemID]))))
  {
    hide IndexOk, QuotasOk;
    assert PolicyOk(w.b, w.b.policies[h.filesystemID]);
    NonZeroKeepsAll(w.b.policies[h.filesystemID].acl);
  }

  predicate Possible(op: AclOp, linodes: set<int>) {
    op.Insert? ==> op.node in linodes
  }

  // An RPC writes what it decided when the policy was p.
  lemma Writes(env: Env, s: System, id: nat, h: Handle, p: Policy)
    requires Valid(s.w.b) && Live(s.w.b, h) && PolicyOk(s.w.b, p) && id in s.rpcs && OpOf(s.rpcs[id].req, h).Some?
    requires s.rpcs[id].pc == Locked(WritePolicy(h, Intended(s.rpcs[id].req, p)))
    requires Possible(OpOf(s.rpcs[id].req, h).value, s.w.b.linodes)
    ensures var op := OpOf(s.rpcs[id].req, h).value;
            var s' := Apply(env, s, Step(id, Delivered));
            && s'.rpcs == s.rpcs[id := Rpc(s.rpcs[id].req, Locked(AwaitPolicy(h)))]
            && Live(s'.w.b, h) && s'.w.b.linodes == s.w.b.linodes && s'.w.b.filesystems == s.w.b.filesystems
            && AdmissionOf(s'.w.b.policies[h.filesystemID]) == Perform(AdmissionOf(p), op)
            && s'.w.b.policies[h.filesystemID].squash == p.squash
            && CommitOf(s, Step(id, Delivered), h) == Some(op)
  {
    hide IndexOk, QuotasOk, OpOf;
    OpNode(s.rpcs[id].req, h);
    StaleWrite(s.w.b, s.rpcs[id].req, h, p);
    PerformedIsOp(s.rpcs[id].req, h, p);
  }

  lemma StaleWrite(b: Backend, req: Request, h: Handle, p: Policy)
    requires Valid(b) && Live(b, h) && PolicyOk(b, p) && OpOf(req, h).Some? && Possible(OpOf(req, h).value, b.linodes)
    ensures var (b', reply) := UpdatePolicy(b, h.spaceID, h.filesystemID, Intended(req, p));
            && reply.Success? && h.filesystemID in b'.policies
            && var q := b'.policies[h.filesystemID];
               q.enabled == Performed(req, p).enabled && q.acl == Performed(req, p).acl && q.squash == p.squash
  {
    hide IndexOk, QuotasOk;
    WithIsInsert(p.acl, NodeOf(req));
    WithoutIsRemove(p.acl, NodeOf(req));
  }

  lemma PerformedIsOp(req: Request, h: Handle, p: Policy)
    requires OpOf(req, h).Some? && Distinct(p.acl)
    ensures AdmissionOf(Performed(req, p)) == Perform(AdmissionOf(p), OpOf(req, h).value)
  {
    WithIsInsert(p.acl, NodeOf(req));
    WithoutIsRemove(p.acl, NodeOf(req));
    var performed, expected := AdmissionOf(Performed(req, p)).nodes, Perform(AdmissionOf(p), OpOf(req, h).value).nodes;
    assert forall n :: n in performed <==> n in expected;
    assert performed == expected;
  }

  // The nodes that must be listed before an operation does anything
  function Needed(op: AclOp): seq<int> {
    if op.Remove? then [op.node] else []
  }

  // Written from the same disabled policy, the second write hides the first.
  lemma SecondHidesFirst(first: AclOp, second: AclOp, p: Policy)
    requires first != second && (first.Insert? || second.Remove?)
    requires !p.enabled && AdmissionOf(p).nodes == (set n | n in Needed(first) + Needed(second))
    ensures Perform(AdmissionOf(p), second) != PerformAll(AdmissionOf(p), [first, second])
  {
    var a := AdmissionOf(p);
    assert [first, second][1..] == [second] && [second][1..] == [];
    assert PerformAll(Perform(a, first), [second]) == PerformAll(Perform(Perform(a, first), second), []);
    if first.Remove? {
      assert first.node in Perform(a, second).nodes && first.node !in Perform(Perform(a, first), second).nodes;
    } else if second.Insert? {
      assert first.node in Perform(Perform(a, first), second).nodes && first.node !in Perform(a, second).nodes;
    }
  }

  function FilesystemOf(env: Env, h: Handle, title: string, tags: seq<string>): Filesystem {
    Filesystem(h.filesystemID, h.spaceID, title, env.region, 0, [NFSv4], FilesystemActive, tags, [], None)
  }

  // One filesystem h, whose policy is disabled, with this list
  function Opening(env: Env, h: Handle, title: string, tags: seq<string>, spaceLabel: string, squash: SquashPolicy,
                 acl: seq<int>, linodes: set<int>): System {
    Fresh(OneFilesystem(FilesystemOf(env, h, title, tags),
                        Policy(h.filesystemID, title, false, acl, squash, [NFSv4], PolicyActive), spaceLabel, linodes))
  }

  lemma OpeningIsInitial(env: Env, h: Handle, title: string, tags: seq<string>, spaceLabel: string,
                         squash: SquashPolicy,
                       acl: seq<int>, linodes: set<int>)
    requires title != "" && Distinct(acl) && (forall n | n in acl :: n in linodes)
             && forall n | n in linodes :: n > 0 && IsInt(n)
    ensures var s := Opening(env, h, title, tags, spaceLabel, squash, acl, linodes);
            && Initial(s) && Live(s.w.b, h) && Labelled(s.w.b, h, title)
            && PolicyOk(s.w.b, s.w.b.policies[h.filesystemID])
  {
    hide Valid;
    OneFilesystemIsValid(FilesystemOf(env, h, title, tags),
                         Policy(h.filesystemID, title, false, acl, squash, [NFSv4], PolicyActive), spaceLabel, linodes);
  }

  lemma OpNode(req: Request, h: Handle)
    requires OpOf(req, h).Some?
    ensures ChangesPolicy(req) && OpOf(req, h).value.node == NodeOf(req) > 0 && IsInt(NodeOf(req))
    ensures req.PublishRequest? <==> OpOf(req, h).value.Insert?
  {
  }

  // Both RPCs read the policy before either writes it.
  lemma BothReachWrite(env: Env, s: System, a: Request, b: Request, h: Handle) returns (events: seq<Event>)
    requires Initial(s) && Live(s.w.b, h) && OpOf(a, h).Some? && OpOf(b, h).Some? && a.volumeID != b.volumeID
    requires !Effective(a, s.w.b.policies[h.filesystemID]) && !Effective(b, s.w.b.policies[h.filesystemID])
    ensures Draws(events, {a, b}) && Commits(env, s, events, h) == []
    ensures var s' := Run(env, s, events);
            var p := s.w.b.policies[h.filesystemID];
            && s'.w.b == s.w.b
            && 0 in s'.rpcs && s'.rpcs[0] == Rpc(a, Locked(WritePolicy(h, Intended(a, p))))
            && 1 in s'.rpcs && s'.rpcs[1] == Rpc(b, Locked(WritePolicy(h, Intended(b, p))))
  {
    hide IndexOk, QuotasOk, StepRpc, Run, Commits, OpOf;
    var one := ReachesWrite(env, s, 0, a, h);
    var s1 := Run(env, s, one);
    var two := ReachesWrite(env, s1, 1, b, h);
    RunInTwo(env, s, one, two);
    CommitsInTwo(env, s, one, two, h);
    events := one + two;
  }

  // The pending writes of the RPCs 0 and 1, one after the other
  lemma BothWrite(env: Env, s: System, a: Request, b: Request, h: Handle, p: Policy) returns (events: seq<Event>)
    requires Valid(s.w.b) && Live(s.w.b, h) && PolicyOk(s.w.b, p) && OpOf(a, h).Some? && OpOf(b, h).Some?
    requires 0 in s.rpcs && s.rpcs[0] == Rpc(a, Locked(WritePolicy(h, Intended(a, p))))
    requires 1 in s.rpcs && s.rpcs[1] == Rpc(b, Locked(WritePolicy(h, Intended(b, p))))
    requires Possible(OpOf(a, h).value, s.w.b.linodes) && Possible(OpOf(b, h).value, s.w.b.linodes)
    ensures Draws(events, {}) && Commits(env, s, events, h) == [OpOf(a, h).value, OpOf(b, h).value]
    ensures var b' := Run(env, s, events).w.b;
            && Live(b', h) && b'.filesystems == s.w.b.filesystems
            && AdmissionAt(b', h) == Perform(AdmissionOf(p), OpOf(b, h).value)
  {
    hide IndexOk, QuotasOk, StepRpc, Run, Commits, OpOf;
    var e0, e1 := Step(0, Delivered), Step(1, Delivered);
    Writes(env, s, 0, h, p);
    RunOne(env, s, e0);
    CommitsOfOne(env, s, e0, h);
    var s1 := Apply(env, s, e0);
    Writes(env, s1, 1, h, p);
    RunOne(env, s1, e1);
    CommitsOfOne(env, s1, e1, h);
    RunInTwo(env, s, [e0], [e1]);
    CommitsInTwo(env, s, [e0], [e1], h);
    events := [e0] + [e1];
  }

  // A state with a disabled policy that lists the nodes to remove
  lemma OpensForOps(env: Env, a: Request, b: Request, h: Handle, title: string) returns (s: System, p: Policy)
    requires title != "" && OpOf(a, h).Some? && OpOf(b, h).Some? && OpOf(a, h) != OpOf(b, h)
    requires a.PublishRequest? || b.UnpublishRequest?
    ensures Initial(s) && Live(s.w.b, h) && Labelled(s.w.b, h, title)
    ensures p == s.w.b.policies[h.filesystemID] && PolicyOk(s.w.b, p)
    ensures AdmissionAt(s.w.b, h) == AdmissionOf(p) && !Effective(a, p) && !Effective(b, p)
    ensures Possible(OpOf(a, h).value, s.w.b.linodes) && Possible(OpOf(b, h).value, s.w.b.linodes)
    ensures Perform(AdmissionOf(p), OpOf(b, h).value) !=
            PerformAll(AdmissionOf(p), [OpOf(a, h).value, OpOf(b, h).value])
  {
    hide Valid, OpOf, PerformAll, Perform;
    OpNode(a, h);
    OpNode(b, h);
    var first, second := OpOf(a, h).value, OpOf(b, h).value;
    var acl := Needed(first) + Needed(second);
    OpeningIsInitial(env, h, title, [], "", RootSquash, acl, {first.node, second.node});
    s := Opening(env, h, title, [], "", RootSquash, acl, {first.node, second.node});
    p := s.w.b.policies[h.filesystemID];
    SecondHidesFirst(first, second, p);
  }

  lemma TwoOpsLose(env: Env, a: Request, b: Request, h: Handle, title: string) returns (s: System, events: seq<Event>)
    requires title != "" && OpOf(a, h).Some? && OpOf(b, h).Some? && OpOf(a, h) != OpOf(b, h) && a.volumeID != b.volumeID
    requires a.PublishRequest? || b.UnpublishRequest?
    ensures Initial(s) && Draws(events, {a, b}) && Live(Run(env, s, events).w.b, h)
    ensures Labelled(Run(env, s, events).w.b, h, title) && !Intact(env, s, events, h)
  {
    hide IndexOk, QuotasOk, StepRpc, Run, Commits, OpOf, Intact, PerformAll, Perform, Intended, Effective;
    var p;
    s, p := OpensForOps(env, a, b, h, title);
    var one := BothReachWrite(env, s, a, b, h);
    var s1 := Run(env, s, one);
    var two := BothWrite(env, s1, a, b, h, p);
    RunInTwo(env, s, one, two);
    CommitsInTwo(env, s, one, two, h);
    events := one + two;
    Lost(env, s, events, h, [OpOf(a, h).value, OpOf(b, h).value], Perform(AdmissionOf(p), OpOf(b, h).value));
  }

  lemma Lost(env: Env, s: System, events: seq<Event>, h: Handle, ops: seq<AclOp>, a: Admission)
    requires Valid(s.w.b) && Live(s.w.b, h) && Commits(env, s, events, h) == [] + ops
    requires AdmissionAt(Run(env, s, events).w.b, h) ==
             a != PerformAll(AdmissionOf(s.w.b.policies[h.filesystemID]), ops)
    ensures !Intact(env, s, events, h)
  {
    hide IndexOk, QuotasOk, StepRpc, Run, Commits, PerformAll;
    assert [] + ops == ops;
  }

  // A write that takes effect late

  // An RPC gives up on its write, which did not take effect, and releases its lock.
  lemma GivesUp(env: Env, s: System, id: nat, h: Handle, update: PolicyUpdate)
    requires Valid(s.w.b) && id in s.rpcs && s.rpcs[id].pc == Locked(WritePolicy(h, update))
    requires ChangesPolicy(s.rpcs[id].req)
    ensures var events := [Step(id, RequestLost(TemporarilyUnavailable)), Step(id, Delivered)];
            && Run(env, s, events) == Moved(s, id, s.rpcs[id].req, s.w.(locks := s.w.locks - {s.rpcs[id].req.volumeID}),
                                            Fail(Unavailable))
            && Commits(env, s, events, h) == []
  {
    hide IndexOk, QuotasOk, OpOf;
    var e1, e2 := Step(id, RequestLost(TemporarilyUnavailable)), Step(id, Delivered);
    var s1 := Apply(env, s, e1);
    assert s1 == Moved(s, id, s.rpcs[id].req, s.w, Locked(Unlock(Error(Unavailable))));
    RunOne(env, s, e1);
    RunOne(env, s1, e2);
    RunInTwo(env, s, [e1], [e2]);
    CommitsOfOne(env, s, e1, h);
    CommitsOfOne(env, s1, e2, h);
    CommitsInTwo(env, s, [e1], [e2], h);
    assert [e1] + [e2] == [e1, e2];
  }

  // RPC 0 decides on its write and gives up; then RPC 1 decides on its own.
  lemma DecidesAfterFailure(env: Env, s: System, a: Request, b: Request, h: Handle) returns (events: seq<Event>)
    requires Initial(s) && Live(s.w.b, h) && OpOf(a, h).Some? && OpOf(b, h).Some?
    requires !Effective(a, s.w.b.policies[h.filesystemID]) && !Effective(b, s.w.b.policies[h.filesystemID])
    ensures Draws(events, {a, b}) && Commits(env, s, events, h) == []
    ensures var s' := Run(env, s, events);
            && s'.w.b == s.w.b && 0 in s'.rpcs && s'.rpcs[0] == Rpc(b, Fail(Unavailable))
            && 1 in s'.rpcs
            && s'.rpcs[1] == Rpc(a, Locked(WritePolicy(h, Intended(a, s.w.b.policies[h.filesystemID]))))
  {
    hide IndexOk, QuotasOk, StepRpc, Run, Commits, OpOf, Intended, Effective;
    OpNode(a, h);
    OpNode(b, h);
    var one := ReachesWrite(env, s, 0, b, h);
    var s1 := Run(env, s, one);
    var lost := [Step(0, RequestLost(TemporarilyUnavailable)), Step(0, Delivered)];
    GivesUp(env, s1, 0, h, Intended(b, s.w.b.policies[h.filesystemID]));
    RunInTwo(env, s, one, lost);
    CommitsInTwo(env, s, one, lost, h);
    var s2 := Run(env, s, one + lost);
    var two := ReachesWrite(env, s2, 1, a, h);
    RunInTwo(env, s, one + lost, two);
    CommitsInTwo(env, s, one + lost, two, h);
    events := (one + lost) + two;
  }

  // The theorem supposes that a write takes effect during its call or never. If
  // the API performed the write of b after the driver had given up on it, then an
  // operation in between would be lost, with one spelling, too.
  lemma LateWriteLoses(env: Env, a: Request, b: Request, h: Handle, title: string)
    returns (s: System, events: seq<Event>)
    requires title != "" && OpOf(a, h).Some? && OpOf(b, h).Some? && OpOf(a, h) != OpOf(b, h)
    requires a.PublishRequest? || b.UnpublishRequest?
    ensures Initial(s) && Draws(events, {a, b}) && Live(s.w.b, h) && Commits(env, s, events, h) == [OpOf(a, h).value]
    ensures 0 in Run(env, s, events).rpcs && Run(env, s, events).rpcs[0] == Rpc(b, Fail(Unavailable))
    ensures var p, late := s.w.b.policies[h.filesystemID], Run(env, s, events).w.b;
            var after := UpdatePolicy(late, h.spaceID, h.filesystemID, Intended(b, p)).0;
            && after.policies.Keys == after.filesystems.Keys && Live(after, h)
            && AdmissionAt(after, h) != PerformAll(AdmissionAt(s.w.b, h), [OpOf(a, h).value, OpOf(b, h).value])
  {
    hide IndexOk, QuotasOk, StepRpc, Run, Commits, OpOf, PerformAll, Perform, Intended, Effective, UpdatePolicy;
    var p;
    s, p := OpensForOps(env, a, b, h, title);
    var last := Step(1, Delivered);
    var one := DecidesAfterFailure(env, s, a, b, h);
    var s1 := Run(env, s, one);
    Writes(env, s1, 1, h, p);
    RunOne(env, s1, last);
    CommitsOfOne(env, s1, last, h);
    RunInTwo(env, s, one, [last]);
    CommitsInTwo(env, s, one, [last], h);
    events := one + [last];
    WrittenLate(Apply(env, s1, last).w.b, b, h, p);
  }

  lemma WrittenLate(b: Backend, req: Request, h: Handle, p: Policy)
    requires Valid(b) && Live(b, h) && PolicyOk(b, p) && OpOf(req, h).Some? && Possible(OpOf(req, h).value, b.linodes)
    ensures var after := UpdatePolicy(b, h.spaceID, h.filesystemID, Intended(req, p)).0;
            && after.policies.Keys == after.filesystems.Keys && Live(after, h)
            && AdmissionAt(after, h) == Perform(AdmissionOf(p), OpOf(req, h).value)
  {
    hide IndexOk, QuotasOk, OpOf;
    OpNode(req, h);
    UpdatePolicyFrame(b, h, Intended(req, p), h);
    StaleWrite(b, req, h, p);
    PerformedIsOp(req, h, p);
  }

  // A squash update, which takes no lock

  // The filesystem h is one that the request finds and accepts.
  ghost predicate Finds(env: Env, b: Backend, req: Request, h: Handle)
    requires Valid(b)
  {
    && Live(b, h) && Rewrites(req, h, b.filesystems[h.filesystemID].nfsLabel) && b.region == env.region
    && SpaceFound(b, req.parameters.value.space)
    && CapacityCompatible(b.filesystems[h.filesystemID].maxCapacity, req.range)
    && b.filesystems[h.filesystemID].tags == TagList(req.parameters.value)
  }

  function Activated(w: World, h: Handle): World {
    w.(b := WaitForFilesystem(w.b, h.spaceID, h.filesystemID, FilesystemActive).0)
  }

  predicate OnlyActivated(b: Backend, b': Backend, h: Handle)
    requires Live(b, h)
  {
    && b'.policies == b.policies && b'.linodes == b.linodes && Live(b', h)
    && b'.filesystems[h.filesystemID].nfsLabel == b.filesystems[h.filesystemID].nfsLabel
  }

  function ActiveFilesystem(b: Backend, h: Handle): Filesystem
    requires Live(b, h)
  {
    Activate(b.filesystems[h.filesystemID])
  }

  lemma FindsFilesystem(env: Env, w: World, req: Request, h: Handle)
    requires Valid(w.b) && Finds(env, w.b, req, h)
    ensures StepRpc(env, w, req, Provisioning(FindFilesystem(w.b.spaceID, w.b.mtlsMode)), Delivered) ==
            (w, Provisioning(AwaitExisting(h, w.b.mtlsMode)))
  {
    hide QuotasOk;
    LookupIsUnique(w.b, LabelOf(req.name), env.region);
  }

  lemma AwaitsFilesystem(env: Env, w: World, req: Request, h: Handle)
    requires Valid(w.b) && Finds(env, w.b, req, h)
    ensures Valid(Activated(w, h).b) && Live(Activated(w, h).b, h) && HandleOf(ActiveFilesystem(w.b, h)) == h
    ensures OnlyActivated(w.b, Activated(w, h).b, h)
    ensures StepRpc(env, w, req, Provisioning(AwaitExisting(h, w.b.mtlsMode)), Delivered) ==
            (Activated(w, h), Provisioning(ReadSquash(ActiveFilesystem(w.b, h), w.b.mtlsMode)))
  {
    hide QuotasOk;
    WaitForFilesystemKeepsValid(w.b, h.spaceID, h.filesystemID, FilesystemActive);
    ProvisioningSafety.ActiveHasTarget(env.parse, w.b.filesystems[h.filesystemID]);
  }

  lemma ReadsSquash(env: Env, w: World, req: Request, f: Filesystem, mtlsMode: string)
    requires Valid(w.b) && Live(w.b, HandleOf(f)) && req.CreateRequest? && req.parameters.Some?
    requires req.parameters.value.squash.Some?
    requires SquashUpdate(env.mode, w.b.policies[f.id], req.parameters.value.squash.value).Some?
    ensures var update := SquashUpdate(env.mode, w.b.policies[f.id], req.parameters.value.squash.value).value;
            StepRpc(env, w, req, Provisioning(ReadSquash(f, mtlsMode)), Delivered) ==
            (w, Provisioning(WriteSquash(f, mtlsMode, update)))
  {
    hide IndexOk, QuotasOk;
  }

  // Everything up to the squash update, whose policy needs one
  lemma ReachesSquash(env: Env, s: System, id: nat, req: Request, h: Handle) returns (events: seq<Event>)
    requires Valid(s.w.b) && Finds(env, s.w.b, req, h) && id !in s.rpcs
    requires SquashUpdate(env.mode, s.w.b.policies[h.filesystemID], req.parameters.value.squash.value).Some?
    ensures var f := ActiveFilesystem(s.w.b, h);
            var p, squash := s.w.b.policies[h.filesystemID], req.parameters.value.squash.value;
            var update := SquashUpdate(env.mode, p, squash).value;
            && Valid(Activated(s.w, h).b) && OnlyActivated(s.w.b, Activated(s.w, h).b, h) && HandleOf(f) == h
            && LeadsQuietly(env, s, id, req, events, Activated(s.w, h),
               Provisioning(WriteSquash(f, s.w.b.mtlsMode, update)), h)
  {
    hide IndexOk, QuotasOk, StepRpc, Run, Commits, LeadsQuietly, Activate, LabelOf;
    var w, w1, f, mtlsMode := s.w, Activated(s.w, h), ActiveFilesystem(s.w.b, h), s.w.b.mtlsMode;
    StartsProvisioning(env, w, req);
    FindsFilesystem(env, w, req, h);
    AwaitsFilesystem(env, w, req, h);
    ReadsSquash(env, w1, req, f, mtlsMode);
    var resolve, read := Provisioning(ResolveSpace), Provisioning(ReadSpacePolicy(w.b.spaceID));
    var find, await := Provisioning(FindFilesystem(w.b.spaceID, mtlsMode)), Provisioning(AwaitExisting(h, mtlsMode));
    events := Begins(env, s, id, req, h);
    events := Goes(env, s, id, req, events, w, Begin, h, w, resolve);
    events := Goes(env, s, id, req, events, w, resolve, h, w, read);
    events := Goes(env, s, id, req, events, w, read, h, w, find);
    events := Goes(env, s, id, req, events, w, find, h, w, await);
    events := Goes(env, s, id, req, events, w, await, h, w1, Provisioning(ReadSquash(f, mtlsMode)));
    events := Goes(env, s, id, req, events, w1, Provisioning(ReadSquash(f, mtlsMode)), h, w1,
                   StepRpc(env, w1, req, Provisioning(ReadSquash(f, mtlsMode)), Delivered).1);
  }

  // The update decided when the policy was p takes effect.
  lemma WritesSquash(env: Env, s: System, id: nat, h: Handle, f: Filesystem, mtlsMode: string, p: Policy,
                     squash: SquashPolicy)
    requires Valid(s.w.b) && Live(s.w.b, h) && HandleOf(f) == h && PolicyOk(s.w.b, p) && id in s.rpcs
    requires s.rpcs[id].req.CreateRequest? && s.rpcs[id].req.parameters.Some?
    requires var update := SquashUpdate(env.mode, p, squash);
             update.Some? && s.rpcs[id].pc == Provisioning(WriteSquash(f, mtlsMode, update.value))
    ensures var s' := Apply(env, s, Step(id, Delivered));
            var goal := SquashGoal(env.mode, p, squash);
            && s'.rpcs == s.rpcs[id := Rpc(s.rpcs[id].req, Provisioning(AwaitSquash(f, mtlsMode)))]
            && Live(s'.w.b, h) && s'.w.b.filesystems == s.w.b.filesystems && s'.w.b.linodes == s.w.b.linodes
            && s'.w.b.policies[h.filesystemID].enabled == goal.enabled
               && s'.w.b.policies[h.filesystemID].acl == goal.acl
            && s'.w.b.policies[h.filesystemID].squash == squash
            && CommitOf(s, Step(id, Delivered), h) == None
  {
    hide IndexOk, QuotasOk;
    SquashUpdateIsAccepted(s.w.b, env.mode, p, squash);
  }

  function OtherSquash(squash: SquashPolicy): SquashPolicy {
    if squash == RootSquash then NoSquash else RootSquash
  }

  // A state in which this request finds h, with a policy that needs rewriting
  function OpeningFor(env: Env, r: Request, h: Handle, title: string, acl: seq<int>, linodes: set<int>): System
    requires Rewrites(r, h, title)
  {
    var parameters := r.parameters.value;
    Opening(env, h, title, TagList(parameters), SpaceLabelFor(parameters.space), OtherSquash(parameters.squash.value),
            acl, linodes)
  }

  lemma OpeningIsFound(env: Env, r: Request, h: Handle, title: string, acl: seq<int>, linodes: set<int>)
    requires title != "" && Distinct(acl) && (forall n | n in acl :: n in linodes)
             && forall n | n in linodes :: n > 0 && IsInt(n)
    requires Rewrites(r, h, title)
    ensures var s := OpeningFor(env, r, h, title, acl, linodes);
            && Initial(s) && Live(s.w.b, h) && Finds(env, s.w.b, r, h)
            && PolicyOk(s.w.b, s.w.b.policies[h.filesystemID])
            && SquashUpdate(env.mode, s.w.b.policies[h.filesystemID], r.parameters.value.squash.value).Some?
  {
    hide Valid, LabelOf;
    var parameters := r.parameters.value;
    OpeningIsInitial(env, h, title, TagList(parameters), SpaceLabelFor(parameters.space),
                     OtherSquash(parameters.squash.value), acl, linodes);
  }

  // In space mode the update alone admits the whole space.
  lemma SpaceModeLoses(env: Env, r: Request, h: Handle, title: string) returns (s: System, events: seq<Event>)
    requires title != "" && Rewrites(r, h, title) && env.mode == SpaceMode
    ensures Initial(s) && Draws(events, {r}) && Live(Run(env, s, events).w.b, h)
    ensures Labelled(Run(env, s, events).w.b, h, title) && !Intact(env, s, events, h)
  {
    hide IndexOk, QuotasOk, StepRpc, Run, Commits, Activate, LabelOf, Intact;
    OpeningIsFound(env, r, h, title, [], {});
    s := OpeningFor(env, r, h, title, [], {});
    var p, last := s.w.b.policies[h.filesystemID], Step(0, Delivered);
    events := ReachesSquash(env, s, 0, r, h);
    var s1 := Run(env, s, events);
    WritesSquash(env, s1, 0, h, ActiveFilesystem(s.w.b, h), s.w.b.mtlsMode, p, r.parameters.value.squash.value);
    RunOne(env, s1, last);
    RunInTwo(env, s, events, [last]);
    CommitsInTwo(env, s, events, [last], h);
    CommitsOfOne(env, s1, last, h);
    events := events + [last];
    Lost(env, s, events, h, [], AdmissionAt(Run(env, s, events).w.b, h));
  }

  // RPC 0, which rewrites the policy, and RPC 1, which operates on it, decide on
  // the same policy p; f is the filesystem as the first found it.
  lemma RewriterAndOperationDecide(env: Env, r: Request, a: Request, h: Handle, title: string)
    returns (s: System, events: seq<Event>, p: Policy, f: Filesystem, mtlsMode: string)
    requires title != "" && Rewrites(r, h, title) && OpOf(a, h).Some?
    ensures Initial(s) && Draws(events, {r, a}) && Live(s.w.b, h) && HandleOf(f) == h
    ensures p == s.w.b.policies[h.filesystemID] && !p.enabled && p.acl == Needed(OpOf(a, h).value)
    ensures Some(p.squash) != r.parameters.value.squash
    ensures var update := SquashUpdate(env.mode, p, r.parameters.value.squash.value);
            var s' := Run(env, s, events);
            && update.Some? && Commits(env, s, events, h) == []
            && Live(s'.w.b, h) && Labelled(s'.w.b, h, title) && PolicyOk(s'.w.b, p)
            && Possible(OpOf(a, h).value, s'.w.b.linodes)
            && 0 in s'.rpcs && s'.rpcs[0] == Rpc(r, Provisioning(WriteSquash(f, mtlsMode, update.value)))
            && 1 in s'.rpcs && s'.rpcs[1] == Rpc(a, Locked(WritePolicy(h, Intended(a, p))))
  {
    hide IndexOk, QuotasOk, StepRpc, Run, Commits, Activate, LabelOf, OpOf, Intended;
    OpNode(a, h);
    var op := OpOf(a, h).value;
    OpeningIsFound(env, r, h, title, Needed(op), {op.node});
    s := OpeningFor(env, r, h, title, Needed(op), {op.node});
    p, f, mtlsMode := s.w.b.policies[h.filesystemID], ActiveFilesystem(s.w.b, h), s.w.b.mtlsMode;
    var one := ReachesSquash(env, s, 0, r, h);
    var s1 := Run(env, s, one);
    var two := ReachesWrite(env, s1, 1, a, h);
    RunInTwo(env, s, one, two);
    CommitsInTwo(env, s, one, two, h);
    events := one + two;
  }

  // In node mode a squash update decided before an operation undoes it.
  lemma StaleSquashLoses(env: Env, r: Request, a: Request, h: Handle, title: string)
    returns (s: System, events: seq<Event>)
    requires title != "" && Rewrites(r, h, title) && OpOf(a, h).Some? && env.mode == NodeMode
    ensures Initial(s) && Draws(events, {r, a}) && Live(Run(env, s, events).w.b, h)
    ensures Labelled(Run(env, s, events).w.b, h, title) && !Intact(env, s, events, h)
  {
    hide IndexOk, QuotasOk, StepRpc, Run, Commits, LabelOf, Intact, OpOf, Intended, SquashUpdate, SpaceMatches;
    var first, p, f, mtlsMode;
    s, first, p, f, mtlsMode := RewriterAndOperationDecide(env, r, a, h, title);
    var second := LateSquashUndoes(env, Run(env, s, first), r, a, h, f, mtlsMode, p);
    RunInTwo(env, s, first, second);
    CommitsInTwo(env, s, first, second, h);
    events := first + second;
    UndoneIsLost(OpOf(a, h).value, p);
    Lost(env, s, events, h, [OpOf(a, h).value], AdmissionOf(p));
  }

  // RPC 1 performs its operation, and then RPC 0 writes the nodes of before.
  lemma LateSquashUndoes(env: Env, s: System, r: Request, a: Request, h: Handle, f: Filesystem, mtlsMode: string,
                         p: Policy)
    returns (events: seq<Event>)
    requires Valid(s.w.b) && Live(s.w.b, h) && PolicyOk(s.w.b, p) && OpOf(a, h).Some? && HandleOf(f) == h
    requires env.mode == NodeMode && Possible(OpOf(a, h).value, s.w.b.linodes)
    requires r.CreateRequest? && r.parameters.Some? && r.parameters.value.squash.Some?
    requires SquashUpdate(env.mode, p, r.parameters.value.squash.value).Some?
    requires 0 in s.rpcs && s.rpcs[0] ==
               Rpc(r, Provisioning(WriteSquash(f, mtlsMode,
                 SquashUpdate(env.mode, p, r.parameters.value.squash.value).value)))
    requires 1 in s.rpcs && s.rpcs[1] == Rpc(a, Locked(WritePolicy(h, Intended(a, p))))
    ensures Draws(events, {}) && Commits(env, s, events, h) == [OpOf(a, h).value]
    ensures var b' := Run(env, s, events).w.b;
            Live(b', h) && b'.filesystems == s.w.b.filesystems && AdmissionAt(b', h) == AdmissionOf(p)
  {
    hide IndexOk, QuotasOk, StepRpc, Run, Commits, OpOf;
    var e1, e0 := Step(1, Delivered), Step(0, Delivered);
    Writes(env, s, 1, h, p);
    RunOne(env, s, e1);
    CommitsOfOne(env, s, e1, h);
    var s1 := Apply(env, s, e1);
    WritesSquash(env, s1, 0, h, f, mtlsMode, p, r.parameters.value.squash.value);
    NonZeroKeepsAll(p.acl);
    RunOne(env, s1, e0);
    CommitsOfOne(env, s1, e0, h);
    RunInTwo(env, s, [e1], [e0]);
    CommitsInTwo(env, s, [e1], [e0], h);
    events := [e1] + [e0];
  }

  lemma UndoneIsLost(op: AclOp, p: Policy)
    requires !p.enabled && p.acl == Needed(op)
    ensures AdmissionOf(p) != PerformAll(AdmissionOf(p), [op])
  {
    var a := AdmissionOf(p);
    assert [op][1..] == [] && PerformAll(a, [op]) == Perform(a, op);
    if op.Remove? {
      assert op.node in a.nodes && op.node !in Perform(a, op).nodes;
    }
  }

  // No run over a set of requests loses an operation on the filesystem h of this
  // label, exactly when different operations on h spell its volume ID in one
  // way, and no request rewrites its squash policy, unless in node mode and
  // where nothing operates on h at all.
  lemma NoLostUpdateIff(env: Env, reqs: set<Request>, h: Handle, title: string)
    requires title != ""
    ensures PolicySafe(env, reqs, h, title) <==> NeverLoses(env, reqs, h, title)
  {
    hide IndexOk, QuotasOk, StepRpc, Run, Commits, Intact, OpOf, Rewrites;
    if PolicySafe(env, reqs, h, title) {
      forall s, events | Initial(s) && Draws(events, reqs) && Live(Run(env, s, events).w.b, h)
                         && Labelled(Run(env, s, events).w.b, h, title)
        ensures Intact(env, s, events, h)
      {
        SafeIsIntact(env, s, events, reqs, h, title);
      }
    } else {
      var s, events := UnsafeLoses(env, reqs, h, title);
    }
  }

  lemma UnsafeLoses(env: Env, reqs: set<Request>, h: Handle, title: string) returns (s: System, events: seq<Event>)
    requires title != "" && !PolicySafe(env, reqs, h, title)
    ensures Initial(s) && Draws(events, reqs) && Live(Run(env, s, events).w.b, h)
    ensures Labelled(Run(env, s, events).w.b, h, title) && !Intact(env, s, events, h)
  {
    hide IndexOk, QuotasOk, StepRpc, Run, Commits, Intact, OpOf, Rewrites;
    if !OpsAgree(reqs, h) {
      var a, b :| a in reqs && b in reqs && OpOf(a, h).Some? && OpOf(b, h).Some?
                  && OpOf(a, h) != OpOf(b, h) && a.volumeID != b.volumeID;
      OpNode(a, h);
      OpNode(b, h);
      if a.PublishRequest? || b.UnpublishRequest? {
        s, events := TwoOpsLose(env, a, b, h, title);
      } else {
        s, events := TwoOpsLose(env, b, a, h, title);
      }
    } else {
      if env.mode == SpaceMode {
        var r :| r in reqs && Rewrites(r, h, title);
        s, events := SpaceModeLoses(env, r, h, title);
      } else {
        var r, a :| r in reqs && a in reqs && Rewrites(r, h, title) && OpOf(a, h).Some?;
        s, events := StaleSquashLoses(env, r, a, h, title);
      }
    }
  }
}
