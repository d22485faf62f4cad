// The lock set of the controller over all interleavings: the locked keys are
// exactly the volume IDs of the RPCs between acquiring and releasing.
module LockSafety {
  import opened ControllerSteps
  import opened LinodeContract
  import opened Transport

  ghost predicate Holds(s: System, id: nat) {
    id in s.rpcs && s.rpcs[id].pc.Locked?
  }

  ghost predicate LocksExact(s: System) {
    && (forall id | Holds(s, id) :: LocksVolume(s.rpcs[id].req) && s.rpcs[id].req.volumeID in s.w.locks)
    && (forall i, j | Holds(s, i) && Holds(s, j) && i != j ::
          s.rpcs[i].req.volumeID != s.rpcs[j].req.volumeID)
    && (forall key | key in s.w.locks :: exists id :: Holds(s, id) && s.rpcs[id].req.volumeID == key)
  }

  // What one step of an RPC may do to the lock set.
  ghost predicate LockChange(req: Request, pc: Pc, pc': Pc, locks: set<string>, locks': set<string>) {
    if pc.Locked? == pc'.Locked? then locks' == locks
    else if pc'.Locked? then LocksVolume(req) && req.volumeID !in locks && locks' == locks + {req.volumeID}
    else LocksVolume(req) ==> locks' == locks - {req.volumeID}
  }

  lemma StepChangesLocks(env: Env, w: World, req: Request, pc: Pc, d: Delivery)
    requires Valid(w.b)
    ensures var (w', pc') := StepRpc(env, w, req, pc, d);
            LockChange(req, pc, pc', w.locks, w'.locks)
  {
    hide IndexOk, QuotasOk;
  }

  lemma LocksExactKept(s: System, id: nat, w': World, pc': Pc)
    requires LocksExact(s) && id in s.rpcs
    requires LockChange(s.rpcs[id].req, s.rpcs[id].pc, pc', s.w.locks, w'.locks)
    ensures LocksExact(System(w', s.rpcs[id := Rpc(s.rpcs[id].req, pc')]))
  {
    var s' := System(w', s.rpcs[id := Rpc(s.rpcs[id].req, pc')]);
    assert forall other | other != id :: Holds(s', other) == Holds(s, other);
    assert Holds(s', id) == pc'.Locked?;
    forall key | key in w'.locks
      ensures exists i :: Holds(s', i) && s'.rpcs[i].req.volumeID == key
    {
      if key in s.w.locks {
        var i :| Holds(s, i) && s.rpcs[i].req.volumeID == key;
        assert Holds(s', i) || i == id;
      } else {
        assert Holds(s', id);
      }
    }
  }

  // Two RPCs that hold their locks hold different ones.
  lemma HoldersDiffer(s: System, i: nat, j: nat)
    requires LocksExact(s) && i in s.rpcs && j in s.rpcs && i != j && s.rpcs[i].pc.Locked? && s.rpcs[j].pc.Locked?
    ensures s.rpcs[i].req.volumeID != s.rpcs[j].req.volumeID
  {
    assert Holds(s, i) && Holds(s, j);
  }

  // Only the holders and the lock set matter.
  lemma SameHolders(s: System, s': System)
    requires LocksExact(s) && s'.w.locks == s.w.locks
    requires forall id :: Holds(s', id) <==> Holds(s, id)
    requires forall id | Holds(s, id) && Holds(s', id) :: s'.rpcs[id].req == s.rpcs[id].req
    ensures LocksExact(s')
  {
  }

  lemma ApplyKeepsLocksExact(env: Env, s: System, e: Event)
    requires Valid(s.w.b) && LocksExact(s)
    ensures LocksExact(Apply(env, s, e))
  {
    match e
    case Start(id, req) =>
      if id !in s.rpcs {
        SameHolders(s, Apply(env, s, e));
      }
    case Step(id, d) =>
      if id in s.rpcs {
        var rpc := s.rpcs[id];
        StepChangesLocks(env, s.w, rpc.req, rpc.pc, d);
        var (w', pc') := StepRpc(env, s.w, rpc.req, rpc.pc, d);
        LocksExactKept(s, id, w', pc');
      }
  }

  lemma {:induction false} LocksExactAlong(env: Env, s: System, events: seq<Event>)
    requires Valid(s.w.b) && LocksExact(s)
    ensures LocksExact(Run(env, s, events))
    decreases events
  {
    if events != [] {
      ApplyKeepsLocksExact(env, s, events[0]);
      LocksExactAlong(env, Apply(env, s, events[0]), events[1..]);
    }
  }

  // In every run, the locked keys are exactly those of the RPCs between acquire
  // and release, each held by one RPC; none is left when all have returned.
  lemma LockedKeysAreHeldKeys(env: Env, s: System, events: seq<Event>)
    requires Initial(s)
    ensures LocksExact(Run(env, s, events))
    ensures (forall id | id in Run(env, s, events).rpcs :: !Run(env, s, events).rpcs[id].pc.Locked?) ==>
              Run(env, s, events).w.locks == {}
  {
    LocksExactAlong(env, s, events);
    var s' := Run(env, s, events);
    if forall id | id in s'.rpcs :: !s'.rpcs[id].pc.Locked? {
      assert forall id :: !Holds(s', id);
      assert forall key :: key !in s'.w.locks;
      assert s'.w.locks == {};
    }
  }
}
