// The contract of the Linode NFS API as the sanity-test client implements it:
// each call as a function from the backend state to the next state and a reply.
// The account holds one Storage Space; its region and the set of Linodes it
// knows are fixed.
module LinodeContract {
  import opened Wrappers
  import opened Text
  import opened NfsModel

  datatype Backend = Backend(
    spaceID: int, spaceLabel: string, mtlsMode: string, region: string, linodes: set<int>,
    filesystems: map<int, Filesystem>,
    filesystemByName: map<string, int>,
    policies: map<int, Policy>,
    quotas: map<int, Quota>,
    nextFilesystemID: int, nextQuotaID: int)

  // HTTP 404, 400 and 409.
  datatype ApiError = NotFound | BadRequest | Conflict

  type Reply<T> = Result<T, ApiError>

  // Access to the maps

  predicate Exists(b: Backend, spaceID: int, filesystemID: int) {
    spaceID == b.spaceID && filesystemID in b.filesystems
  }

  function FilesystemName(spaceID: int, title: string): string {
    Itoa(spaceID) + "/" + title
  }

  lemma NamesDiffer(spaceID: int, a: string, b: string)
    ensures FilesystemName(spaceID, a) == FilesystemName(spaceID, b) <==> a == b
  {
    var prefix := Itoa(spaceID) + "/";
    assert (prefix + a)[|prefix|..] == a && (prefix + b)[|prefix|..] == b;
  }

  // Sorting by ID

  lemma Inhabited(ids: set<int>)
    ensures ids == {} || exists id :: id in ids
  {
    if forall id :: id !in ids {
      assert ids == {};
    }
  }

  lemma {:induction false} LeastExists(ids: set<int>)
    requires ids != {}
    ensures exists least :: least in ids && forall id | id in ids :: least <= id
  {
    Inhabited(ids);
    var first :| first in ids;
    if lower :| lower in ids && lower < first {
      assert lower in ids - {first};
      LeastExists(ids - {first});
      var least :| least in ids - {first} && forall id | id in ids - {first} :: least <= id;
      assert forall id | id in ids :: id == first || id in ids - {first};
    }
  }

  ghost function Least(ids: set<int>): (least: int)
    requires ids != {}
    ensures least in ids && forall id | id in ids :: least <= id
  {
    LeastExists(ids);
    var least :| least in ids && forall id | id in ids :: least <= id;
    least
  }

  ghost function SortedIDs(ids: set<int>): seq<int>
  {
    if ids == {} then []
    else
      var least := Least(ids);
      [least] + SortedIDs(ids - {least})
  }

  ghost predicate Ascending(ids: seq<int>) {
    forall i, j | 0 <= i < j < |ids| :: ids[i] < ids[j]
  }

  lemma {:induction false} SortedIDsAreSorted(ids: set<int>)
    ensures Ascending(SortedIDs(ids))
    ensures forall id :: id in SortedIDs(ids) <==> id in ids
  {
    if ids != {} {
      var least := Least(ids);
      var rest := SortedIDs(ids - {least});
      SortedIDsAreSorted(ids - {least});
      forall i | 0 <= i < |rest| ensures least < rest[i] {
        assert rest[i] in rest;
      }
    }
  }

  // The listing order is determined by the set of listed IDs alone.
  lemma {:induction false} SortedIsUnique(listed: seq<int>, ids: set<int>)
    requires Ascending(listed) && forall id :: id in listed <==> id in ids
    ensures listed == SortedIDs(ids)
  {
    if listed != [] {
      var rest := ids - {listed[0]};
      assert listed[0] in listed;
      assert Least(ids) in listed;
      forall id ensures id in listed[1..] <==> id in rest {
        if id in rest {
          var i :| 0 <= i < |listed| && listed[i] == id;
          assert listed[1..][i - 1] == id;
        }
      }
      SortedIsUnique(listed[1..], rest);
    } else {
      assert ids == {} by {
        assert forall id | id in ids :: id in listed;
      }
    }
  }

  lemma SortedSingleton(id: int)
    ensures SortedIDs({id}) == [id]
  {
    SortedIsUnique([id], {id});
  }

  // Spaces

  // An empty filter value lists everything.
  function ListSpaces(b: Backend, title: string): seq<int> {
    if title != "" && title != b.spaceLabel then [] else [b.spaceID]
  }

  function GetSpace(b: Backend, spaceID: int): Reply<int> {
    if spaceID != b.spaceID then Failure(NotFound) else Success(spaceID)
  }

  // The only part of the space policy that the driver reads is its mTLS mode.
  function GetSpacePolicy(b: Backend, spaceID: int): Reply<string> {
    if spaceID != b.spaceID then Failure(NotFound) else Success(b.mtlsMode)
  }

  // Filesystems

  predicate Matches(filesystem: Filesystem, title: string, region: string) {
    (title == "" || filesystem.nfsLabel == title) && (region == "" || filesystem.region == region)
  }

  function MatchingIDs(b: Backend, title: string, region: string): set<int> {
    set id | id in b.filesystems && Matches(b.filesystems[id], title, region)
  }

  ghost function Listed(b: Backend, ids: seq<int>): seq<Filesystem>
    requires forall i | 0 <= i < |ids| :: ids[i] in b.filesystems
  {
    seq(|ids|, i requires 0 <= i < |ids| => b.filesystems[ids[i]])
  }

  ghost function ListFilesystems(b: Backend, spaceID: int, title: string, region: string): Reply<seq<Filesystem>>
  {
    if spaceID != b.spaceID then Failure(NotFound)
    else
      var ids := SortedIDs(MatchingIDs(b, title, region));
      SortedIDsAreSorted(MatchingIDs(b, title, region));
      assert forall i | 0 <= i < |ids| :: ids[i] in ids;
      Success(Listed(b, ids))
  }

  function GetFilesystem(b: Backend, spaceID: int, filesystemID: int): Reply<Filesystem> {
    if Exists(b, spaceID, filesystemID) then Success(b.filesystems[filesystemID]) else Failure(NotFound)
  }

  datatype CreateOptions = CreateOptions(
    nfsLabel: string, region: string, maxCapacity: int,
    protocols: Option<seq<Protocol>>, tags: Option<seq<string>>)

  function TagsOf(options: CreateOptions): seq<string> {
    match options.tags
    case None => []
    case Some(tags) => tags
  }

  predicate ValidCreate(b: Backend, options: CreateOptions) {
    options.nfsLabel != "" && options.region == b.region && options.protocols == Some([NFSv4])
  }

  predicate CreateCompatible(filesystem: Filesystem, options: CreateOptions)
    requires options.protocols.Some?
  {
    && filesystem.nfsLabel == options.nfsLabel && filesystem.region == options.region
    && filesystem.protocols == options.protocols.value && filesystem.tags == TagsOf(options)
  }

  function NewFilesystem(id: int, spaceID: int, options: CreateOptions): Filesystem
    requires options.protocols.Some?
  {
    Filesystem(id, spaceID, options.nfsLabel, options.region, options.maxCapacity,
               options.protocols.value, Creating, TagsOf(options), [], None)
  }

  function NewPolicy(filesystem: Filesystem): Policy {
    Policy(filesystem.id, filesystem.nfsLabel, false, [], RootSquash, [NFSv4], PolicyActive)
  }

  // A retry with the same space, label and parameters returns the existing
  // filesystem; other parameters are a conflict.
  function CreateFilesystem(b: Backend, spaceID: int, options: CreateOptions): (Backend, Reply<Filesystem>)
    requires forall name | name in b.filesystemByName :: b.filesystemByName[name] in b.filesystems
  {
    if spaceID != b.spaceID then (b, Failure(NotFound))
    else if !ValidCreate(b, options) then (b, Failure(BadRequest))
    else
      var name := FilesystemName(spaceID, options.nfsLabel);
      if name in b.filesystemByName then
        var filesystem := b.filesystems[b.filesystemByName[name]];
        (b, if CreateCompatible(filesystem, options) then Success(filesystem) else Failure(Conflict))
      else
        var filesystem := NewFilesystem(b.nextFilesystemID, spaceID, options);
        var quota := Quota(b.nextQuotaID, filesystem.id, true, Some(filesystem.maxCapacity));
        (b.(nextFilesystemID := b.nextFilesystemID + 1,
            filesystems := b.filesystems[filesystem.id := filesystem],
            filesystemByName := b.filesystemByName[name := filesystem.id],
            policies := b.policies[filesystem.id := NewPolicy(filesystem)],
            quotas := b.quotas[quota.id := quota],
            nextQuotaID := b.nextQuotaID + 1),
         Success(filesystem))
  }

  function HexDigit(d: nat): char
    requires d < 16
  {
    "0123456789abcdef"[d]
  }

  function HexDigits(n: nat): string {
    if n < 16 then [HexDigit(n)] else HexDigits(n / 16) + [HexDigit(n % 16)]
  }

  function Hex(n: int): string {
    if n < 0 then "-" + HexDigits(-n) else HexDigits(n)
  }

  // A filesystem becomes mountable when it becomes active.
  function Activate(filesystem: Filesystem): Filesystem
  {
    var path := "/" + filesystem.nfsLabel + "-" + Hex(filesystem.id);
    var fqdn := "sanity-space-" + Hex(filesystem.spaceID) + ".nfs." + filesystem.region + ".linode.com:" + path;
    filesystem.(status := FilesystemActive,
                mountTargetIPs := ["[2001:db8::" + Hex(filesystem.id) + "]:" + path],
                mountTargetFQDN := Some(fqdn))
  }

  lemma ActivateKeeps(f: Filesystem)
    ensures var active := Activate(f);
            && active.id == f.id && active.spaceID == f.spaceID && active.nfsLabel == f.nfsLabel
            && active.region == f.region && active.maxCapacity == f.maxCapacity && active.protocols == f.protocols
            && active.tags == f.tags && Activate(active) == active
  {
  }

  function WaitForFilesystem(b: Backend, spaceID: int, filesystemID: int, status: FilesystemStatus)
    : (Backend, Reply<Filesystem>)
  {
    if !Exists(b, spaceID, filesystemID) then (b, Failure(NotFound))
    else if status != FilesystemActive then (b, Failure(BadRequest))
    else
      var active := Activate(b.filesystems[filesystemID]);
      (b.(filesystems := b.filesystems[filesystemID := active]), Success(active))
  }

  function DeleteFilesystem(b: Backend, spaceID: int, filesystemID: int): (Backend, Reply<()>)
  {
    if !Exists(b, spaceID, filesystemID) then (b, Failure(NotFound))
    else
      var name := FilesystemName(spaceID, b.filesystems[filesystemID].nfsLabel);
      (b.(filesystems := b.filesystems - {filesystemID},
          filesystemByName := b.filesystemByName - {name},
          policies := b.policies - {filesystemID},
          quotas := map id | id in b.quotas && b.quotas[id].filesystemID != filesystemID :: b.quotas[id]),
       Success(()))
  }

  // Quotas

  function QuotaIDs(b: Backend, filesystemID: int): set<int> {
    set id | id in b.quotas && b.quotas[id].filesystemID == filesystemID
  }

  ghost function ListQuotas(b: Backend, spaceID: int, filesystemID: int): Reply<seq<Quota>>
  {
    if !Exists(b, spaceID, filesystemID) then Failure(NotFound)
    else
      var ids := SortedIDs(QuotaIDs(b, filesystemID));
      SortedIDsAreSorted(QuotaIDs(b, filesystemID));
      assert forall i | 0 <= i < |ids| :: ids[i] in ids;
      Success(seq(|ids|, i requires 0 <= i < |ids| => b.quotas[ids[i]]))
  }

  function ResizedQuota(quota: Quota, filesystemID: int, capacity: int): Quota {
    if quota.filesystemID == filesystemID && quota.isRoot then quota.(maxCapacity := Some(capacity)) else quota
  }

  function ResizedQuotas(quotas: map<int, Quota>, filesystemID: int, capacity: int): map<int, Quota> {
    map id | id in quotas :: ResizedQuota(quotas[id], filesystemID, capacity)
  }

  // Resizing a filesystem resizes its root quotas.
  function UpdateFilesystem(b: Backend, spaceID: int, filesystemID: int, maxCapacity: Option<int>)
    : (Backend, Reply<Filesystem>)
  {
    if !Exists(b, spaceID, filesystemID) then (b, Failure(NotFound))
    else if maxCapacity.None? then (b, Success(b.filesystems[filesystemID]))
    else
      var capacity := maxCapacity.value;
      if capacity < b.filesystems[filesystemID].maxCapacity then (b, Failure(BadRequest))
      else
        var filesystem := b.filesystems[filesystemID].(maxCapacity := capacity);
        (b.(filesystems := b.filesystems[filesystemID := filesystem],
            quotas := ResizedQuotas(b.quotas, filesystemID, capacity)),
         Success(filesystem))
  }

  // Access policies

  ghost predicate Distinct(ids: seq<int>) {
    forall i, j | 0 <= i < j < |ids| :: ids[i] != ids[j]
  }

  ghost predicate ValidPolicyUpdate(update: PolicyUpdate) {
    && (update.linodeIDs.Some? ==>
          Distinct(update.linodeIDs.value) && forall id | id in update.linodeIDs.value :: id > 0)
    && (update.protocols.Some? ==> update.protocols.value == [NFSv4])
  }

  function Revised(policy: Policy, update: PolicyUpdate): Policy {
    policy.(nfsLabel := if update.nfsLabel.Some? then update.nfsLabel.value else policy.nfsLabel,
            enabled := if update.enabled.Some? then update.enabled.value else policy.enabled,
            acl := if update.linodeIDs.Some? then update.linodeIDs.value else policy.acl,
            squash := if update.squash.Some? then update.squash.value else policy.squash,
            protocols := if update.protocols.Some? then update.protocols.value else policy.protocols,
            status := Updating)
  }

  function GetPolicy(b: Backend, spaceID: int, filesystemID: int): Reply<Policy>
    requires b.policies.Keys == b.filesystems.Keys
  {
    if Exists(b, spaceID, filesystemID) then Success(b.policies[filesystemID]) else Failure(NotFound)
  }

  // An update is asynchronous: the policy is Updating until a wait sees it Active.
  ghost function UpdatePolicy(b: Backend, spaceID: int, filesystemID: int, update: PolicyUpdate)
    : (Backend, Reply<Policy>)
    requires b.policies.Keys == b.filesystems.Keys
  {
    if !Exists(b, spaceID, filesystemID) then (b, Failure(NotFound))
    else if !ValidPolicyUpdate(update) then (b, Failure(BadRequest))
    else if update.linodeIDs.Some? && exists id | id in update.linodeIDs.value :: id !in b.linodes then
      (b, Failure(NotFound))
    else
      var policy := Revised(b.policies[filesystemID], update);
      (b.(policies := b.policies[filesystemID := policy]), Success(policy))
  }

  function WaitForPolicy(b: Backend, spaceID: int, filesystemID: int, status: PolicyStatus): (Backend, Reply<Policy>)
    requires b.policies.Keys == b.filesystems.Keys
  {
    if !Exists(b, spaceID, filesystemID) then (b, Failure(NotFound))
    else if status != PolicyActive then (b, Failure(BadRequest))
    else
      var policy := b.policies[filesystemID].(status := PolicyActive);
      (b.(policies := b.policies[filesystemID := policy]), Success(policy))
  }

  // The representation invariant

  // filesystemByName is the exact inverse index of filesystems.
  ghost predicate IndexOk(b: Backend) {
    && (forall id | id in b.filesystems ::
          var filesystem := b.filesystems[id];
          var name := FilesystemName(b.spaceID, filesystem.nfsLabel);
          && filesystem.id == id && filesystem.spaceID == b.spaceID && filesystem.region == b.region
          && filesystem.nfsLabel != "" && filesystem.protocols == [NFSv4]
          && id < b.nextFilesystemID
          && name in b.filesystemByName && b.filesystemByName[name] == id)
    && (forall name | name in b.filesystemByName ::
          && b.filesystemByName[name] in b.filesystems
          && FilesystemName(b.spaceID, b.filesystems[b.filesystemByName[name]].nfsLabel) == name)
  }

  ghost predicate PolicyOk(b: Backend, policy: Policy) {
    && policy.protocols == [NFSv4]
    && Distinct(policy.acl) && forall id | id in policy.acl :: id > 0 && id in b.linodes
  }

  ghost predicate PoliciesOk(b: Backend) {
    && b.policies.Keys == b.filesystems.Keys
    && forall id | id in b.policies :: b.policies[id].filesystemID == id && PolicyOk(b, b.policies[id])
  }

  // Each filesystem has exactly one quota; it is a root quota of the
  // filesystem's own capacity.
  ghost predicate QuotasOk(b: Backend) {
    && (forall id | id in b.quotas ::
          var quota := b.quotas[id];
          && quota.id == id && id < b.nextQuotaID && quota.isRoot
          && quota.filesystemID in b.filesystems
          && quota.maxCapacity == Some(b.filesystems[quota.filesystemID].maxCapacity))
    && (forall i, j | i in b.quotas && j in b.quotas :: b.quotas[i].filesystemID == b.quotas[j].filesystemID ==> i == j)
    && (forall id | id in b.filesystems :: exists quotaID | quotaID in b.quotas :: b.quotas[quotaID].filesystemID == id)
  }

  ghost predicate Valid(b: Backend) {
    && IndexOk(b) && PoliciesOk(b) && QuotasOk(b)
    && forall id | id in b.linodes :: IsInt(id)
  }

  function EmptyBackend(spaceID: int, spaceLabel: string, mtlsMode: string, region: string,
                        linodes: set<int>): Backend {
    Backend(spaceID, spaceLabel, mtlsMode, region, linodes, map[], map[], map[], map[], 10000, 20000)
  }

  lemma EmptyIsValid(spaceID: int, spaceLabel: string, mtlsMode: string, region: string, linodes: set<int>)
    requires forall id | id in linodes :: IsInt(id)
    ensures Valid(EmptyBackend(spaceID, spaceLabel, mtlsMode, region, linodes))
  {
  }

  lemma CreateKeepsValid(b: Backend, spaceID: int, options: CreateOptions)
    requires Valid(b)
    ensures Valid(CreateFilesystem(b, spaceID, options).0)
  {
    hide QuotasOk;
    if spaceID == b.spaceID && ValidCreate(b, options)
       && FilesystemName(spaceID, options.nfsLabel) !in b.filesystemByName {
      CreateKeepsIndex(b, options);
      CreateKeepsPolicies(b, options);
      CreateKeepsQuotas(b, options);
    }
  }

  lemma CreateKeepsPolicies(b: Backend, options: CreateOptions)
    requires Valid(b) && ValidCreate(b, options)
    requires FilesystemName(b.spaceID, options.nfsLabel) !in b.filesystemByName
    ensures PoliciesOk(CreateFilesystem(b, b.spaceID, options).0)
  {
    hide QuotasOk;
  }

  lemma CreateKeepsIndex(b: Backend, options: CreateOptions)
    requires Valid(b) && ValidCreate(b, options)
    requires FilesystemName(b.spaceID, options.nfsLabel) !in b.filesystemByName
    ensures IndexOk(CreateFilesystem(b, b.spaceID, options).0)
  {
  }

  lemma CreateKeepsQuotas(b: Backend, options: CreateOptions)
    requires Valid(b) && ValidCreate(b, options)
    requires FilesystemName(b.spaceID, options.nfsLabel) !in b.filesystemByName
    ensures QuotasOk(CreateFilesystem(b, b.spaceID, options).0)
  {
    var after := CreateFilesystem(b, b.spaceID, options).0;
    assert b.nextFilesystemID !in b.filesystems && b.nextQuotaID !in b.quotas;
    forall f | f in after.filesystems
      ensures exists quotaID | quotaID in after.quotas :: after.quotas[quotaID].filesystemID == f
    {
      if f == b.nextFilesystemID {
        assert after.quotas[b.nextQuotaID].filesystemID == f;
      } else {
        var quotaID :| quotaID in b.quotas && b.quotas[quotaID].filesystemID == f;
        assert after.quotas[quotaID].filesystemID == f;
      }
    }
  }

  lemma WaitForFilesystemKeepsValid(b: Backend, spaceID: int, filesystemID: int, status: FilesystemStatus)
    requires Valid(b)
    ensures Valid(WaitForFilesystem(b, spaceID, filesystemID, status).0)
  {
    var after := WaitForFilesystem(b, spaceID, filesystemID, status).0;
    assert after.filesystems.Keys == b.filesystems.Keys;
    assert IndexOk(after);
    assert QuotasOk(after);
  }

  lemma DeleteKeepsValid(b: Backend, spaceID: int, filesystemID: int)
    requires Valid(b)
    ensures Valid(DeleteFilesystem(b, spaceID, filesystemID).0)
  {
    var after := DeleteFilesystem(b, spaceID, filesystemID).0;
    if Exists(b, spaceID, filesystemID) {
      var name := FilesystemName(spaceID, b.filesystems[filesystemID].nfsLabel);
      assert IndexOk(after);
      assert after.policies.Keys == after.filesystems.Keys;
      forall f | f in after.filesystems
        ensures exists quotaID | quotaID in after.quotas :: after.quotas[quotaID].filesystemID == f
      {
        var quotaID :| quotaID in b.quotas && b.quotas[quotaID].filesystemID == f;
        assert after.quotas[quotaID].filesystemID == f;
      }
      assert QuotasOk(after);
    }
  }

  lemma UpdateFilesystemKeepsValid(b: Backend, spaceID: int, filesystemID: int, maxCapacity: Option<int>)
    requires Valid(b)
    ensures Valid(UpdateFilesystem(b, spaceID, filesystemID, maxCapacity).0)
  {
    hide QuotasOk;
    var after := UpdateFilesystem(b, spaceID, filesystemID, maxCapacity).0;
    if after != b {
      assert after.filesystems.Keys == b.filesystems.Keys;
      ResizeKeepsIndex(b, filesystemID, maxCapacity.value);
      ResizeKeepsQuotas(b, filesystemID, maxCapacity.value);
    }
  }

  lemma ResizeKeepsIndex(b: Backend, filesystemID: int, capacity: int)
    requires Valid(b) && filesystemID in b.filesystems && b.filesystems[filesystemID].maxCapacity <= capacity
    ensures IndexOk(UpdateFilesystem(b, b.spaceID, filesystemID, Some(capacity)).0)
  {
  }

  lemma ResizeKeepsQuotas(b: Backend, filesystemID: int, capacity: int)
    requires Valid(b) && filesystemID in b.filesystems && b.filesystems[filesystemID].maxCapacity <= capacity
    ensures QuotasOk(UpdateFilesystem(b, b.spaceID, filesystemID, Some(capacity)).0)
  {
    var after := UpdateFilesystem(b, b.spaceID, filesystemID, Some(capacity)).0;
    forall f | f in after.filesystems
      ensures exists quotaID | quotaID in after.quotas :: after.quotas[quotaID].filesystemID == f
    {
      var quotaID :| quotaID in b.quotas && b.quotas[quotaID].filesystemID == f;
      assert after.quotas[quotaID].filesystemID == f;
    }
  }

  lemma UpdatePolicyKeepsValid(b: Backend, spaceID: int, filesystemID: int, update: PolicyUpdate)
    requires Valid(b)
    ensures Valid(UpdatePolicy(b, spaceID, filesystemID, update).0)
  {
    var after := UpdatePolicy(b, spaceID, filesystemID, update).0;
    assert after.policies.Keys == b.policies.Keys;
    if after != b {
      assert PolicyOk(b, after.policies[filesystemID]);
    }
    assert PoliciesOk(after);
  }

  lemma WaitForPolicyKeepsValid(b: Backend, spaceID: int, filesystemID: int, status: PolicyStatus)
    requires Valid(b)
    ensures Valid(WaitForPolicy(b, spaceID, filesystemID, status).0)
  {
    var after := WaitForPolicy(b, spaceID, filesystemID, status).0;
    assert after.policies.Keys == b.policies.Keys;
    assert PoliciesOk(after);
  }

  // A lookup by a non-empty label finds at most one filesystem: the one the
  // name index holds, if its region matches.
  lemma LookupIsUnique(b: Backend, title: string, region: string)
    requires Valid(b) && title != ""
    ensures var name := FilesystemName(b.spaceID, title);
            ListFilesystems(b, b.spaceID, title, region) ==
            if name in b.filesystemByName && (region == "" || region == b.region)
            then Success([b.filesystems[b.filesystemByName[name]]])
            else Success([])
  {
    var name := FilesystemName(b.spaceID, title);
    var ids := MatchingIDs(b, title, region);
    if name in b.filesystemByName && (region == "" || region == b.region) {
      var id := b.filesystemByName[name];
      NamesDiffer(b.spaceID, b.filesystems[id].nfsLabel, title);
      assert forall other :: other in ids <==> other == id;
      assert ids == {id};
      SortedSingleton(id);
      assert Listed(b, [id]) == [b.filesystems[id]];
    } else {
      assert forall other :: other !in ids;
      assert ids == {};
      assert Listed(b, []) == [];
    }
  }

  // Listing the quotas of a filesystem gives its one root quota.
  lemma QuotaIsUnique(b: Backend, filesystemID: int)
    requires Valid(b) && filesystemID in b.filesystems
    ensures exists id ::
              ListQuotas(b, b.spaceID, filesystemID) ==
              Success([Quota(id, filesystemID, true, Some(b.filesystems[filesystemID].maxCapacity))])
  {
    var id :| id in b.quotas && b.quotas[id].filesystemID == filesystemID;
    assert forall other :: other in QuotaIDs(b, filesystemID) <==> other == id;
    assert QuotaIDs(b, filesystemID) == {id};
    SortedSingleton(id);
    assert b.quotas[id] == Quota(id, filesystemID, true, Some(b.filesystems[filesystemID].maxCapacity));
    assert ListQuotas(b, b.spaceID, filesystemID).value == [b.quotas[id]];
  }
}
