// The NFS resources the driver and its backend exchange.
module NfsModel {
  import opened Wrappers

  datatype Protocol = NFSv4 | OtherProtocol

  datatype SquashPolicy = NoSquash | RootSquash | AllSquash

  datatype FilesystemStatus = Creating | FilesystemActive

  datatype Filesystem = Filesystem(
    id: int, spaceID: int, nfsLabel: string, region: string, maxCapacity: int,
    protocols: seq<Protocol>, status: FilesystemStatus, tags: seq<string>,
    mountTargetIPs: seq<string>, mountTargetFQDN: Option<string>)

  datatype PolicyStatus = PolicyActive | Updating

  // The entries of an access list carry only the Linode ID here.
  datatype Policy = Policy(
    filesystemID: int, nfsLabel: string, enabled: bool, acl: seq<int>,
    squash: SquashPolicy, protocols: seq<Protocol>, status: PolicyStatus)

  datatype PolicyUpdate = PolicyUpdate(
    nfsLabel: Option<string>, enabled: Option<bool>, linodeIDs: Option<seq<int>>,
    squash: Option<SquashPolicy>, protocols: Option<seq<Protocol>>)

  datatype Quota = Quota(id: int, filesystemID: int, isRoot: bool, maxCapacity: Option<int>)
}
