// How the driver computes an access policy update from the policy it read.
module AccessPolicies {
  import opened Wrappers
  import opened Text
  import opened NfsModel
  import opened LinodeContract

  datatype AccessPolicyMode = SpaceMode | NodeMode

  // filesystemPolicyLinodeIDs: the non-zero IDs of the access list, in order.
  function NonZero(acl: seq<int>): seq<int>
  {
    if acl == [] then []
    else
      var n := |acl| - 1;
      NonZero(acl[..n]) + if acl[n] != 0 then [acl[n]] else []
  }

  function PolicyUpdateFor(policy: Policy, enabled: bool, linodeIDs: seq<int>): PolicyUpdate {
    PolicyUpdate(Some(policy.nfsLabel), Some(enabled), Some(linodeIDs), Some(policy.squash),
                 if policy.protocols != [] then Some(policy.protocols) else None)
  }

  function With(ids: seq<int>, node: int): seq<int> {
    if node in ids then ids else ids + [node]
  }

  function Without(ids: seq<int>, node: int): seq<int>
  {
    if ids == [] then []
    else
      var n := |ids| - 1;
      Without(ids[..n], node) + if ids[n] != node then [ids[n]] else []
  }

  // publishedNodeIDs
  function Printed(ids: seq<int>): seq<string> {
    seq(|ids|, i requires 0 <= i < |ids| => Itoa(ids[i]))
  }

  // csiControllerVolumeStatus: a disabled policy publishes to no node.
  function PublishedNodeIDs(policy: Policy): seq<string> {
    if !policy.enabled then [] else Printed(NonZero(policy.acl))
  }

  lemma {:induction false} NonZeroKeepsAll(acl: seq<int>)
    requires 0 !in acl
    ensures NonZero(acl) == acl
  {
    if acl != [] {
      NonZeroKeepsAll(acl[..|acl| - 1]);
      assert acl[|acl| - 1] in acl;
    }
  }

  // The order stays: a list is filtered part by part.
  lemma {:induction false} NonZeroInTwo(a: seq<int>, b: seq<int>)
    ensures NonZero(a + b) == NonZero(a) + NonZero(b)
    decreases b
  {
    if b == [] {
      assert a + b == a;
    } else {
      var n := |b| - 1;
      NonZeroInTwo(a, b[..n]);
      assert (a + b)[..|a + b| - 1] == a + b[..n];
    }
  }

  // All but the zeros are kept, as often as they are listed.
  lemma {:induction false} NonZeroKeepsCounts(acl: seq<int>)
    ensures multiset(NonZero(acl)) == multiset(acl)[0 := 0]
  {
    if acl != [] {
      NonZeroKeepsCounts(acl[..|acl| - 1]);
      assert acl == acl[..|acl| - 1] + [acl[|acl| - 1]];
    }
  }

  lemma {:induction false} NonZeroIsFilter(acl: seq<int>)
    ensures 0 !in NonZero(acl)
    ensures forall id | id in acl && id != 0 :: id in NonZero(acl)
    ensures forall id | id in NonZero(acl) :: id in acl
    ensures NonZero(acl) == acl <==> 0 !in acl
  {
    if acl != [] {
      NonZeroIsFilter(acl[..|acl| - 1]);
      assert acl == acl[..|acl| - 1] + [acl[|acl| - 1]];
    }
    if 0 !in acl {
      NonZeroKeepsAll(acl);
    }
  }

  lemma WithIsInsert(ids: seq<int>, node: int)
    requires Distinct(ids)
    ensures Distinct(With(ids, node))
    ensures forall id :: id in With(ids, node) <==> id in ids || id == node
  {
  }

  lemma {:induction false} WithoutIsRemove(ids: seq<int>, node: int)
    requires Distinct(ids)
    ensures Distinct(Without(ids, node))
    ensures forall id :: id in Without(ids, node) <==> id in ids && id != node
  {
    if ids != [] {
      var n := |ids| - 1;
      WithoutIsRemove(ids[..n], node);
      assert ids == ids[..n] + [ids[n]];
      assert ids[n] !in ids[..n];
    }
  }

  lemma {:induction false} WithoutAbsent(ids: seq<int>, node: int)
    requires node !in ids
    ensures Without(ids, node) == ids
  {
    if ids != [] {
      WithoutAbsent(ids[..|ids| - 1], node);
      assert ids[|ids| - 1] in ids;
    }
  }

  // Unpublishing undoes publishing a node that was not listed.
  lemma WithoutUndoesWith(ids: seq<int>, node: int)
    requires node !in ids
    ensures Without(With(ids, node), node) == ids
  {
    WithoutAbsent(ids, node);
    assert With(ids, node)[..|ids|] == ids;
  }

  // The reported node IDs parse back to exactly the access list.
  lemma PublishedNodeIDsParseBack(policy: Policy)
    requires forall id | id in policy.acl :: id > 0 && IsInt(id)
    ensures var ids := PublishedNodeIDs(policy);
            if policy.enabled then
              |ids| == |policy.acl| && forall i | 0 <= i < |ids| :: Atoi(ids[i]) == Some(policy.acl[i])
            else ids == []
  {
    NonZeroKeepsAll(policy.acl);
    forall i | 0 <= i < |policy.acl| ensures Atoi(Itoa(policy.acl[i])) == Some(policy.acl[i]) {
      AtoiItoa(policy.acl[i]);
    }
  }

  // Squash reconciliation

  // The policy that setInitialSquashPolicy works towards. In space mode it is
  // enabled with an empty access list, which leaves admission to the space.
  function SquashGoal(mode: AccessPolicyMode, policy: Policy, squash: SquashPolicy): Policy {
    match mode
    case SpaceMode => policy.(squash := squash, enabled := true, acl := [])
    case NodeMode => policy.(squash := squash, acl := NonZero(policy.acl))
  }

  // The update that setInitialSquashPolicy issues, if any.
  function SquashUpdate(mode: AccessPolicyMode, policy: Policy, squash: SquashPolicy): Option<PolicyUpdate>
  {
    var enabled := if mode == SpaceMode then true else policy.enabled;
    var linodeIDs := if mode == SpaceMode then [] else NonZero(policy.acl);
    if policy.squash != squash || enabled != policy.enabled || linodeIDs != policy.acl then
      Some(PolicyUpdateFor(policy, enabled, linodeIDs).(squash := Some(squash)))
    else None
  }

  // An update is issued exactly when the policy differs from its goal, it leads
  // to the goal, and the goal needs no further update.
  lemma SquashReachesGoal(mode: AccessPolicyMode, policy: Policy, squash: SquashPolicy)
    ensures SquashUpdate(mode, policy, squash).None? <==> policy == SquashGoal(mode, policy, squash)
    ensures SquashUpdate(mode, policy, squash).Some? ==>
              Revised(policy, SquashUpdate(mode, policy, squash).value) ==
              SquashGoal(mode, policy, squash).(status := Updating)
    ensures SquashUpdate(mode, SquashGoal(mode, policy, squash), squash) == None
  {
    NonZeroIsFilter(policy.acl);
    NonZeroKeepsAll(NonZero(policy.acl));
  }

  // The update that reconciles a policy is always accepted.
  lemma SquashUpdateIsAccepted(b: Backend, mode: AccessPolicyMode, policy: Policy, squash: SquashPolicy)
    requires PolicyOk(b, policy)
    ensures var update := SquashUpdate(mode, policy, squash);
            update.Some? ==>
              ValidPolicyUpdate(update.value) && update.value.linodeIDs.Some?
              && forall id | id in update.value.linodeIDs.value :: id in b.linodes
  {
    if mode == NodeMode {
      NonZeroKeepsAll(policy.acl);
    }
  }

  // The goal does not depend on the status, nor on how far an earlier pass came.
  lemma GoalIsStable(mode: AccessPolicyMode, policy: Policy, squash: SquashPolicy, status: PolicyStatus)
    ensures SquashGoal(mode, policy.(status := status), squash) == SquashGoal(mode, policy, squash).(status := status)
    ensures SquashGoal(mode, SquashGoal(mode, policy, squash), squash) == SquashGoal(mode, policy, squash)
  {
    NonZeroIsFilter(policy.acl);
    NonZeroKeepsAll(NonZero(policy.acl));
  }
}
