// The sanity-test client as a mutable object, behind a network with scripted
// faults. Each method is one API call on the maps that the object holds.
module LinodeAPI {
  import opened Wrappers
  import opened NfsModel
  import opened LinodeContract
  import opened Transport

  // sort.Slice by ID

  method SortIDs(ids: seq<int>) returns (sorted: seq<int>)
    requires Distinct(ids)
    ensures Ascending(sorted)
    ensures forall id :: id in sorted <==> id in ids
  {
    sorted := [];
    for i := 0 to |ids|
      invariant Ascending(sorted)
      invariant forall id :: id in sorted <==> id in ids[..i]
    {
      assert ids[i] !in ids[..i];
      assert ids[..i + 1] == ids[..i] + [ids[i]];
      sorted := InsertID(sorted, ids[i]);
    }
    assert ids[..|ids|] == ids;
  }

  method InsertID(sorted: seq<int>, id: int) returns (extended: seq<int>)
    requires Ascending(sorted) && id !in sorted
    ensures Ascending(extended)
    ensures forall other :: other in extended <==> other in sorted || other == id
  {
    var i := 0;
    while i < |sorted| && sorted[i] < id
      invariant i <= |sorted|
      invariant forall k | 0 <= k < i :: sorted[k] < id
    {
      i := i + 1;
    }
    extended := sorted[..i] + [id] + sorted[i..];
    Inserted(sorted, i, id);
  }

  lemma Inserted(sorted: seq<int>, i: nat, id: int)
    requires Ascending(sorted) && id !in sorted && i <= |sorted|
    requires forall k | 0 <= k < i :: sorted[k] < id
    requires i < |sorted| ==> id <= sorted[i]
    ensures var extended := sorted[..i] + [id] + sorted[i..];
            Ascending(extended) && forall other :: other in extended <==> other in sorted || other == id
  {
    var extended := sorted[..i] + [id] + sorted[i..];
    InsertedMembers(sorted, i, id);
    if i < |sorted| {
      assert sorted[i] in sorted;
    }
    forall j, k | 0 <= j < k < |extended| ensures extended[j] < extended[k] {
      assert extended[j] == if j < i then sorted[j] else if j == i then id else sorted[j - 1];
      assert extended[k] == if k < i then sorted[k] else if k == i then id else sorted[k - 1];
    }
  }

  lemma InsertedMembers(sorted: seq<int>, i: nat, id: int)
    requires i <= |sorted|
    ensures forall other :: other in sorted[..i] + [id] + sorted[i..] <==> other in sorted || other == id
  {
    assert sorted == sorted[..i] + sorted[i..];
  }

  class LinodeClient {
    const spaceID: int
    const spaceLabel: string
    const mtlsMode: string
    const region: string
    const linodes: set<int>
    var filesystems: map<int, Filesystem>
    var filesystemByName: map<string, int>
    var filesystemPolicy: map<int, Policy>
    var quotas: map<int, Quota>
    var nextFilesystemID: int
    var nextQuotaID: int
    var net: seq<Delivery>

    function State(): Backend
      reads this
    {
      Backend(spaceID, spaceLabel, mtlsMode, region, linodes, filesystems, filesystemByName,
              filesystemPolicy, quotas, nextFilesystemID, nextQuotaID)
    }

    constructor (spaceID: int, spaceLabel: string, mtlsMode: string, region: string, linodes: set<int>,
                 net: seq<Delivery>)
      ensures State() == EmptyBackend(spaceID, spaceLabel, mtlsMode, region, linodes) && this.net == net
    {
      this.spaceID, this.spaceLabel, this.mtlsMode := spaceID, spaceLabel, mtlsMode;
      this.region, this.linodes, this.net := region, linodes, net;
      filesystems, filesystemByName, filesystemPolicy, quotas := map[], map[], map[], map[];
      nextFilesystemID, nextQuotaID := 10000, 20000;
    }

    method ListSpaces(title: string) returns (r: Result<seq<int>, ClientError>)
      modifies this`net
      ensures net == Later(old(net))
      ensures r == Received(Next(old(net)), Success(LinodeContract.ListSpaces(State(), title)))
    {
      var d := Next(net);
      net := Later(net);
      if title != "" && title != spaceLabel {
        return Received(d, Success([]));
      }
      return Received(d, Success([spaceID]));
    }

    method GetSpace(id: int) returns (r: Result<int, ClientError>)
      modifies this`net
      ensures net == Later(old(net)) && r == Received(Next(old(net)), LinodeContract.GetSpace(State(), id))
    {
      var d := Next(net);
      net := Later(net);
      return Received(d, if id != spaceID then Failure(NotFound) else Success(spaceID));
    }

    method GetSpacePolicy(id: int) returns (r: Result<string, ClientError>)
      modifies this`net
      ensures net == Later(old(net)) && r == Received(Next(old(net)), LinodeContract.GetSpacePolicy(State(), id))
    {
      var d := Next(net);
      net := Later(net);
      return Received(d, if id != spaceID then Failure(NotFound) else Success(mtlsMode));
    }

    method ListFilesystems(space: int, title: string, area: string) returns (r: Result<seq<Filesystem>, ClientError>)
      modifies this`net
      ensures net == Later(old(net))
      ensures r == Received(Next(old(net)), LinodeContract.ListFilesystems(State(), space, title, area))
    {
      var d := Next(net);
      net := Later(net);
      if space != spaceID {
        return Received(d, Failure(NotFound));
      }
      var ids: seq<int> := [];
      var todo := filesystems.Keys;
      while todo != {}
        invariant net == Later(old(net)) && todo <= filesystems.Keys && Distinct(ids)
        invariant forall id :: id in ids <==> id in MatchingIDs(State(), title, area) && id !in todo
        decreases todo
      {
        Inhabited(todo);
        var id :| id in todo;
        todo := todo - {id};
        if Matches(filesystems[id], title, area) {
          ids := ids + [id];
        }
      }
      var sorted := SortIDs(ids);
      SortedIsUnique(sorted, MatchingIDs(State(), title, area));
      assert forall i | 0 <= i < |sorted| :: sorted[i] in sorted;
      var table := filesystems;
      var result := seq(|sorted|, i requires 0 <= i < |sorted| && sorted[i] in table => table[sorted[i]]);
      assert sorted == SortedIDs(MatchingIDs(State(), title, area));
      assert result == Listed(State(), sorted);
      assert LinodeContract.ListFilesystems(State(), space, title, area).value == result;
      return Received(d, Success(result));
    }

    method GetFilesystem(space: int, id: int) returns (r: Result<Filesystem, ClientError>)
      modifies this`net
      ensures net == Later(old(net)) && r == Received(Next(old(net)), LinodeContract.GetFilesystem(State(), space, id))
    {
      var d := Next(net);
      net := Later(net);
      if space != spaceID || id !in filesystems {
        return Received(d, Failure(NotFound));
      }
      return Received(d, Success(filesystems[id]));
    }

    method ListQuotas(space: int, id: int) returns (r: Result<seq<Quota>, ClientError>)
      modifies this`net
      ensures net == Later(old(net))
      ensures r == Received(Next(old(net)), LinodeContract.ListQuotas(State(), space, id))
    {
      var d := Next(net);
      net := Later(net);
      if space != spaceID || id !in filesystems {
        return Received(d, Failure(NotFound));
      }
      var ids: seq<int> := [];
      var todo := quotas.Keys;
      while todo != {}
        invariant net == Later(old(net)) && todo <= quotas.Keys && Distinct(ids)
        invariant forall q :: q in ids <==> q in QuotaIDs(State(), id) && q !in todo
        decreases todo
      {
        Inhabited(todo);
        var q :| q in todo;
        todo := todo - {q};
        if quotas[q].filesystemID == id {
          ids := ids + [q];
        }
      }
      var sorted := SortIDs(ids);
      SortedIsUnique(sorted, QuotaIDs(State(), id));
      assert forall i | 0 <= i < |sorted| :: sorted[i] in sorted;
      var table := quotas;
      var result := seq(|sorted|, i requires 0 <= i < |sorted| && sorted[i] in table => table[sorted[i]]);
      assert sorted == SortedIDs(QuotaIDs(State(), id));
      assert LinodeContract.ListQuotas(State(), space, id).value == result;
      return Received(d, Success(result));
    }

    method UpdateFilesystem(space: int, id: int, maxCapacity: Option<int>) returns (r: Result<Filesystem, ClientError>)
      modifies this
      ensures net == Later(old(net))
      ensures var outcome := LinodeContract.UpdateFilesystem(old(State()), space, id, maxCapacity);
              State() == Effect(Next(old(net)), old(State()), outcome) && r == Received(Next(old(net)), outcome.1)
    {
      var d := Next(net);
      net := Later(net);
      if d.RequestLost? {
        return Failure(Network(d.fault));
      }
      if space != spaceID || id !in filesystems {
        return Received(d, Failure(NotFound));
      }
      var filesystem := filesystems[id];
      if maxCapacity.Some? {
        if maxCapacity.value < filesystem.maxCapacity {
          return Received(d, Failure(BadRequest));
        }
        filesystem := filesystem.(maxCapacity := maxCapacity.value);
        filesystems := filesystems[id := filesystem];
        ResizeQuotas(id, maxCapacity.value);
      }
      return Received(d, Success(filesystem));
    }

    method ResizeQuotas(id: int, capacity: int)
      modifies this`quotas
      ensures quotas == ResizedQuotas(old(quotas), id, capacity)
    {
      var todo := quotas.Keys;
      while todo != {}
        invariant todo <= quotas.Keys == old(quotas).Keys
        invariant forall q | q in quotas ::
                    quotas[q] == if q in todo then old(quotas)[q] else ResizedQuota(old(quotas)[q], id, capacity)
        decreases todo
      {
        Inhabited(todo);
        var q :| q in todo;
        todo := todo - {q};
        var quota := quotas[q];
        if quota.filesystemID == id && quota.isRoot {
          quotas := quotas[q := quota.(maxCapacity := Some(capacity))];
        }
      }
      assert forall q :: q !in todo;
      ghost var resized := map q | q in old(quotas) :: ResizedQuota(old(quotas)[q], id, capacity);
      assert forall q :: q in quotas <==> q in resized;
      assert forall q | q in quotas :: quotas[q] == resized[q];
      assert quotas == resized;
    }

    method CreateFilesystem(space: int, options: CreateOptions) returns (r: Result<Filesystem, ClientError>)
      requires LinodeContract.Valid(State())
      modifies this
      ensures net == Later(old(net))
      ensures var outcome := LinodeContract.CreateFilesystem(old(State()), space, options);
              State() == Effect(Next(old(net)), old(State()), outcome) && r == Received(Next(old(net)), outcome.1)
    {
      var d := Next(net);
      net := Later(net);
      if d.RequestLost? {
        return Failure(Network(d.fault));
      }
      if space != spaceID {
        return Received(d, Failure(NotFound));
      }
      if !ValidCreate(State(), options) {
        return Received(d, Failure(BadRequest));
      }
      var name := FilesystemName(space, options.nfsLabel);
      if name in filesystemByName {
        var existing := filesystems[filesystemByName[name]];
        if !CreateCompatible(existing, options) {
          return Received(d, Failure(Conflict));
        }
        return Received(d, Success(existing));
      }
      var filesystem := NewFilesystem(nextFilesystemID, space, options);
      nextFilesystemID := nextFilesystemID + 1;
      filesystems := filesystems[filesystem.id := filesystem];
      filesystemByName := filesystemByName[name := filesystem.id];
      filesystemPolicy := filesystemPolicy[filesystem.id := NewPolicy(filesystem)];
      quotas := quotas[nextQuotaID := Quota(nextQuotaID, filesystem.id, true, Some(filesystem.maxCapacity))];
      nextQuotaID := nextQuotaID + 1;
      return Received(d, Success(filesystem));
    }

    method WaitForFilesystem(space: int, id: int, status: FilesystemStatus) returns (r: Result<Filesystem, ClientError>)
      modifies this
      ensures net == Later(old(net))
      ensures var outcome := LinodeContract.WaitForFilesystem(old(State()), space, id, status);
              State() == Effect(Next(old(net)), old(State()), outcome) && r == Received(Next(old(net)), outcome.1)
    {
      var d := Next(net);
      net := Later(net);
      if d.RequestLost? {
        return Failure(Network(d.fault));
      }
      if space != spaceID || id !in filesystems {
        return Received(d, Failure(NotFound));
      }
      if status != FilesystemActive {
        return Received(d, Failure(BadRequest));
      }
      var filesystem := Activate(filesystems[id]);
      filesystems := filesystems[id := filesystem];
      return Received(d, Success(filesystem));
    }

    method DeleteFilesystem(space: int, id: int) returns (r: Result<(), ClientError>)
      modifies this
      ensures net == Later(old(net))
      ensures var outcome := LinodeContract.DeleteFilesystem(old(State()), space, id);
              State() == Effect(Next(old(net)), old(State()), outcome) && r == Received(Next(old(net)), outcome.1)
    {
      var d := Next(net);
      net := Later(net);
      if d.RequestLost? {
        return Failure(Network(d.fault));
      }
      if space != spaceID || id !in filesystems {
        return Received(d, Failure(NotFound));
      }
      var filesystem := filesystems[id];
      filesystems := filesystems - {id};
      filesystemByName := filesystemByName - {FilesystemName(space, filesystem.nfsLabel)};
      filesystemPolicy := filesystemPolicy - {id};
      DeleteQuotas(id);
      return Received(d, Success(()));
    }

    method DeleteQuotas(id: int)
      modifies this`quotas
      ensures quotas == map q | q in old(quotas) && old(quotas)[q].filesystemID != id :: old(quotas)[q]
    {
      var todo := quotas.Keys;
      while todo != {}
        invariant todo <= old(quotas).Keys
        invariant forall q :: q in quotas <==> q in old(quotas) && (q in todo || old(quotas)[q].filesystemID != id)
        invariant forall q | q in quotas :: quotas[q] == old(quotas)[q]
        decreases todo
      {
        Inhabited(todo);
        var q :| q in todo;
        todo := todo - {q};
        if quotas[q].filesystemID == id {
          quotas := quotas - {q};
        }
      }
      assert forall q :: q !in todo;
      ghost var kept := map q | q in old(quotas) && old(quotas)[q].filesystemID != id :: old(quotas)[q];
      assert forall q :: q in quotas <==> q in kept;
      assert forall q | q in quotas :: quotas[q] == kept[q];
      assert quotas == kept;
    }

    method GetPolicy(space: int, id: int) returns (r: Result<Policy, ClientError>)
      requires LinodeContract.Valid(State())
      modifies this`net
      ensures net == Later(old(net)) && r == Received(Next(old(net)), LinodeContract.GetPolicy(State(), space, id))
    {
      var d := Next(net);
      net := Later(net);
      if space != spaceID || id !in filesystems {
        return Received(d, Failure(NotFound));
      }
      return Received(d, Success(filesystemPolicy[id]));
    }

    // validateSanityFilesystemPolicy
    method ValidatePolicyUpdate(update: PolicyUpdate) returns (valid: bool)
      ensures valid <==> ValidPolicyUpdate(update)
    {
      if update.linodeIDs.Some? {
        var ids := update.linodeIDs.value;
        var seen: set<int> := {};
        for i := 0 to |ids|
          invariant forall id :: id in seen <==> id in ids[..i]
          invariant forall j, k | 0 <= j < k < i :: ids[j] != ids[k]
          invariant forall k | 0 <= k < i :: ids[k] > 0
        {
          if ids[i] <= 0 {
            assert ids[i] in ids;
            return false;
          }
          if ids[i] in seen {
            var k :| 0 <= k < i && ids[..i][k] == ids[i];
            assert ids[k] == ids[i];
            return false;
          }
          seen := seen + {ids[i]};
          assert ids[..i + 1] == ids[..i] + [ids[i]];
        }
      }
      return !(update.protocols.Some? && update.protocols.value != [NFSv4]);
    }

    method UpdatePolicy(space: int, id: int, update: PolicyUpdate) returns (r: Result<Policy, ClientError>)
      requires LinodeContract.Valid(State())
      modifies this
      ensures net == Later(old(net))
      ensures var outcome := LinodeContract.UpdatePolicy(old(State()), space, id, update);
              State() == Effect(Next(old(net)), old(State()), outcome) && r == Received(Next(old(net)), outcome.1)
    {
      hide IndexOk, QuotasOk;
      var d := Next(net);
      net := Later(net);
      if d.RequestLost? {
        return Failure(Network(d.fault));
      }
      if space != spaceID || id !in filesystems {
        return Received(d, Failure(NotFound));
      }
      var valid := ValidatePolicyUpdate(update);
      if !valid {
        return Received(d, Failure(BadRequest));
      }
      var policy := filesystemPolicy[id];
      if update.nfsLabel.Some? {
        policy := policy.(nfsLabel := update.nfsLabel.value);
      }
      if update.enabled.Some? {
        policy := policy.(enabled := update.enabled.value);
      }
      if update.linodeIDs.Some? {
        var acl, known := CopyIDs(update.linodeIDs.value);
        if !known {
          return Received(d, Failure(NotFound));
        }
        policy := policy.(acl := acl);
      }
      if update.squash.Some? {
        policy := policy.(squash := update.squash.value);
      }
      if update.protocols.Some? {
        policy := policy.(protocols := update.protocols.value);
      }
      policy := policy.(status := Updating);
      filesystemPolicy := filesystemPolicy[id := policy];
      return Received(d, Success(policy));
    }

    // The access list of an update, unless it names an unknown Linode
    method CopyIDs(ids: seq<int>) returns (acl: seq<int>, known: bool)
      ensures known <==> forall id | id in ids :: id in linodes
      ensures known ==> acl == ids
    {
      acl := [];
      for i := 0 to |ids|
        invariant acl == ids[..i] && forall k | 0 <= k < i :: ids[k] in linodes
      {
        if ids[i] !in linodes {
          var unknown := ids[i];
          assert unknown in ids && unknown !in linodes;
          return acl, false;
        }
        acl := acl + [ids[i]];
      }
      assert forall id | id in ids :: id in linodes;
      return acl, true;
    }

    method WaitForPolicy(space: int, id: int, status: PolicyStatus) returns (r: Result<Policy, ClientError>)
      requires LinodeContract.Valid(State())
      modifies this
      ensures net == Later(old(net))
      ensures var outcome := LinodeContract.WaitForPolicy(old(State()), space, id, status);
              State() == Effect(Next(old(net)), old(State()), outcome) && r == Received(Next(old(net)), outcome.1)
    {
      var d := Next(net);
      net := Later(net);
      if d.RequestLost? {
        return Failure(Network(d.fault));
      }
      if space != spaceID || id !in filesystems {
        return Received(d, Failure(NotFound));
      }
      if status != PolicyActive {
        return Received(d, Failure(BadRequest));
      }
      var policy := filesystemPolicy[id].(status := PolicyActive);
      filesystemPolicy := filesystemPolicy[id := policy];
      return Received(d, Success(policy));
    }
  }
}
