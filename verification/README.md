# A verified model of the Linode file storage CSI driver

This project models the stateful core of the driver in Dafny and proves what it keeps over all
interleavings, retries and failures.

* **Controller.** Each RPC of `ControllerServer` is a step machine with one step for each call on the
  Linode API, on the lock set or on the Kubernetes API (`ControllerSteps`). Any number of RPCs run at
  once, and every call may fail, or take effect and lose its reply (`Transport`). The class
  `Controller.ControllerServer` holds the RPCs as methods with the driver's own branches and loops; each
  method is proved to be the uninterrupted run of its machine, under any faults.
* **Backend.** `LinodeContract` states the sanity-test client as functions on its maps, with its
  representation invariant `Valid`; `LinodeAPI.LinodeClient` is the same client as a mutable object.
* **Node.** The four node RPCs are a second step machine over the lock set and a mount table
  (`NodeSteps`), and methods of `Node.NodeServer` proved to be its uninterrupted runs. `MountTable` and
  `HostMounter.SanityMounter` are the sanity-test mounter.
* **Values.** Handles, labels, mount targets, mount options, access lists and the region cache have
  modules of their own.

Main results:

1. *No lost update* (`PolicySafety.NoLostUpdate`, `LostUpdates.NoLostUpdateIff`): over every run of a set
   of requests, the access policy of a filesystem is what atomic inserts and removes of nodes make of it,
   *if and only if* different operations on the filesystem spell its volume ID in one way, and no
   `CreateVolume` asks for a squash policy for its label (in node mode one may, where nothing else
   operates on it). For the other direction there is a run from an initial state that loses an accepted
   operation, for each kind of request set that breaks the condition. The filesystem may be created during
   the run.
2. *Idempotent provisioning* (`ProvisioningSafety.CreateVolumeIsIdempotent`, `RetryAfterAnyRun`,
   `ProvisioningProgress.DeliveredCallsSucceed`): over all cut and interleaved runs of equal requests,
   every success names the same volume, nobody gets `AlreadyExists`, an undisturbed retry succeeds, and
   without faults everybody does. The other requests of a run may be any that do not delete the filesystem
   of the label or resize it out of the requested range; expands inside the range are allowed. The driver
   does not check that the required capacity fits under the limit; a retry succeeds exactly when it does
   (`RetrySucceedsIffWellFormed`).
3. *Monotone quota*: the root quota never decreases, in any run (`QuotaSafety.RootQuotaIsMonotone`). No
   resize shrinks when it is sent, in every run, if and only if the resizes of the filesystem to different
   capacities spell its volume ID in one way (`StaleResizes.ResizesFitIffAgree`), and what an expand reports
   is the quota, in every run, if and only if in addition expands that require different capacities do
   (`ReportsHoldIffAgree`). Runs start without a negative capacity; but the driver lets a `CreateVolume` ask
   for one, and then expands without a required capacity count, too. `ExpandCallAnswer` says exactly what one
   expand answers and does.
4. *No stacked mounts* (`NodeSafety.NoStackedMounts`): a set of requests never mounts on a mounted
   path, in any run, if and only if the requests that would mount at one place take the same lock.
   `OrderlyPathsAgree` gives the usual sufficient conditions.
5. *True successes* (`NodeSuccess.SuccessIsTrueIff`): what the node RPCs report about a place is true
   when they report it, in every run, if and only if each request that may mount the place shares its lock
   with each that may unmount it. A publish may unmount the staging path, since it cleans it up when its
   mount fails; so a success of staging is not safe from a publish of the same volume (`PublishesUnstage`).
6. *mTLS* (`NodeSafety.StagingFollowsMode`, `RequiredMeansSecure`, `RequiredPlacesAreSecure`): which mount
   calls a staging RPC makes, in every run; an RPC whose mode is required makes none without mTLS; and a
   place that starts unmounted and that only such requests mount is never mounted without it.
7. *Squash policies*: one pass of the reconciliation over any faults (`SquashReconciliation`), and over all
   runs: a `CreateVolume` about to succeed has the squash policy that it asked for in place, and with it its
   whole goal, if and only if the requests that may come to reconcile one filesystem (one label, equal tags,
   a common space) ask for one squash policy, and then nothing publishes it or unpublishes it
   (`SquashRaces.SquashesHoldIffAgree`).
8. *Mount targets*: the node mounts the source that the controller answers for, if and only if there is an
   FQDN or the commas in the targets are harmless, which is spelled out (`MountTargets.AgreementIff`), with
   one concrete failure each of whether and of what is mounted.
9. *Answers*: for each RPC of both machines, for every request and every state, what an undisturbed call
   answers and leaves behind, by the fields of the request and the state alone (`ControllerAnswers`,
   `CreateAnswers`, `NodeAnswers`, the last under all outcomes on the host), what any lost call becomes
   (`StepAnswers.FaultsAreErrors`), and, over all runs, from which step each answer comes and that it was
   true there (`RunAnswers`, `CreatedVolumes`, `NodeAnswers`). From end to end, staging with the context
   that a `CreateVolume` answered mounts that filesystem, by the mTLS mode of its space
   (`VolumeContexts.StagesWhatWasCreated`).
10. *Backend invariant*, *the option rewrite on tokens*, *mount roots on cyclic and acyclic tables*, *handle
   round trips*, *label canonicalisation* and *the region cache*.

Parameters of the model: `netip.ParseAddr` and `filepath.Clean` are arbitrary functions (the first with
the two properties of `MountTargets.WellBehaved` where stated); the region, the policy mode, the set of
known Linodes and all outcomes of API and host calls are arbitrary.

## Model

| member | source | states |
|---|---|---|
| `Text.AcceptedIntegers` | internal/driver/controller_helpers.go:129-141 | Which texts the driver reads as IDs: digits with or without a sign, with leading zeros, in the 64-bit range. |
| `Handles.VolumeHandleRoundTrip` | internal/driver/controller_helpers.go:128-146 | Parsing a formatted volume handle gives back the IDs, for all 64-bit integers. |
| `Handles.SnapshotHandleRoundTrip` | internal/driver/controller_helpers.go:148-166 | The same for snapshot handles. |
| `Handles.AcceptedVolumeHandles` | internal/driver/controller_helpers.go:128-142 | Exactly which texts are volume handles: two integers with one slash between them, after trimming. |
| `Handles.AcceptedSnapshotHandles` | internal/driver/controller_helpers.go:148-162 | The same for snapshot handles, with three. |
| `Handles.FormatIsInjective` | internal/driver/controller_helpers.go:144-146 | Distinct filesystems have distinct formatted IDs, hence distinct lock keys. |
| `Handles.NotBothKinds` | internal/driver/controller_helpers.go:128-166 | No text parses both as a volume and as a snapshot handle. |
| `Handles.CanonicalMeansFormatted` | internal/driver/controller_helpers.go:128-146 | The canonical volume IDs are exactly the outputs of the formatter. |
| `Handles.CanonicalKeysAgree` | internal/driver/controller_helpers.go:128-142 | Two canonical IDs are the same key if and only if they name the same filesystem. |
| `Handles.OnlyCanonicalKeysAgree` | internal/driver/controller_helpers.go:128-142 | A parsable ID equals every canonical ID of its filesystem if and only if it is canonical. |
| `Handles.PlusSignIsAnotherSpelling` | internal/driver/controller_helpers.go:129-141 | A plus sign in front gives a second spelling of the same filesystem. |
| `Labels.NormalizeIsLowercase` | internal/driver/controller_helpers.go:448-452 | Lowercasing changes the letters A to Z alone. |
| `Labels.LabelIsLongestFittingPrefix` | internal/driver/controller_helpers.go:450-462 | A name that fits in 63 bytes is lowercased; a longer one keeps its longest fitting prefix that does not end in a hyphen. |
| `Labels.LabelIsIdempotent` | internal/driver/controllerserver.go:74 | The label of a label is that label. |
| `Labels.LabelIgnoresCase` | internal/driver/controllerserver.go:74 | Names that differ only in letter case share a label. |
| `Labels.EmptyLabel` | internal/driver/controller_helpers.go:450-462 | Exactly which names have an empty label. |
| `MountTargets.MountTargetIPProperties` | internal/driver/controller_helpers.go:319-329 | A usable target yields an address with a colon, and no comma unless the target has one. |
| `Text.CutIsFirst` | internal/driver/controller_helpers.go:319-323 | A target is cut at the first `:/`, if there is one. |
| `Text.TrimCutsEnds` | internal/driver/controller_helpers.go:324-325 | Trimming removes exactly the given characters at both ends. |
| `MountTargets.UsableIffNative` | internal/driver/controller_helpers.go:319-329 | A target is usable if and only if it names a native IPv6 address, and that is what is read from it. |
| `MountTargets.UsableIPsInTwo` | internal/driver/nodeserver_helpers.go:124-135 | The addresses are read target by target, in order. |
| `MountTargets.UsableIPsOfOne` | internal/driver/nodeserver_helpers.go:124-135 | One target gives its native address, or nothing if it has none. |
| `MountTargets.FirstUsableIsFirst` | internal/driver/nodeserver_helpers.go:126-130 | The source read from a list is its first usable target, and empty if and only if there is none. |
| `MountTargets.Compact` | internal/driver/nodeserver_helpers.go:125-134 | Compacting the slice that is being ranged over is the order-preserving filter-map of the original list; the source is the original text of the first kept target. |
| `MountTargets.NodeMountTargets` | internal/driver/nodeserver_helpers.go:120-136 | The node reads the FQDN if present and otherwise the usable targets. |
| `MountTargets.UsableIPsAreUsable` | internal/driver/nodeserver_helpers.go:124-135 | Every address read comes from a usable target, and there is one if and only if a target is usable. |
| `MountTargets.NodeReadsParts` | internal/driver/nodeserver_helpers.go:120-136 | What the node reads from any printed context: the FQDN, or else the usable ones among the comma-separated parts of the targets. |
| `MountTargets.AgreementIff` | internal/driver/nodeserver_helpers.go:120-136 | The node reads the source that the controller answers for (the FQDN, or else the first usable target, or none), if and only if there is an FQDN, or the first usable target has no comma and no other usable part before it, or no target is usable and no part of one. |
| `MountTargets.ControllerAndNodeAgree` | internal/driver/controller_helpers.go:269-329 | Without commas in targets both agree: the source is the FQDN or else the first usable target, whose address comes first and is native IPv6, never IPv4-mapped. |
| `MountTargets.CommasBreakAcceptance` | internal/driver/controller_helpers.go:274 | A concrete target with a comma and a concrete parser: the controller rejects it and the node mounts its second part. |
| `MountTargets.CommasBreakSource` | internal/driver/controller_helpers.go:274 | A concrete target with a comma in its path: the controller accepts it and the node mounts another export. |
| `StageOptions.RewriteInPlace` | internal/driver/nodeserver_helpers.go:81-98 | The nested in-place loops, with their shortcut, rewrite every option as specified, and nothing if there are no addresses. |
| `StageOptions.ReplaceParts` | internal/driver/nodeserver_helpers.go:86-93 | The inner loop replaces exactly the matching parts, and reports whether it changed any. |
| `StageOptions.SkippedOption` | internal/driver/nodeserver_helpers.go:83-85 | The containment test skips only options that the rewrite keeps. |
| `StageOptions.RewriteIsTokenwise` | internal/driver/nodeserver_helpers.go:81-98 | On the comma-split tokens of all options, exactly the tokens remoteports=dns are replaced; all others, their order and their number stay. |
| `StageOptions.RewriteIsComplete` | internal/driver/nodeserver_helpers.go:81-98 | No such token is left, and rewriting again changes nothing. |
| `StageOptions.AddressesAreNotDNS` | internal/driver/nodeserver_helpers.go:90 | Addresses read from a context have no comma and never spell the word that is replaced, so the two lemmas above apply. |
| `Locking.VolumeLocks.TryAcquire` | pkg/util/volume_lock.go:28-36 | Takes a free key; refuses a taken one without any change. |
| `Locking.VolumeLocks.Release` | pkg/util/volume_lock.go:38-42 | Gives exactly this key back. |
| `AccessPolicies.NonZeroInTwo` | internal/driver/controller_helpers.go:331-343 | A list is filtered part by part, so the order stays. |
| `AccessPolicies.NonZeroKeepsCounts` | internal/driver/controller_helpers.go:331-343 | All IDs but zeros are kept, as often as they are listed. |
| `AccessPolicies.NonZeroIsFilter` | internal/driver/controller_helpers.go:331-343 | The IDs taken from a policy are its non-zero ones, and the whole list if and only if it has no zero. |
| `AccessPolicies.WithIsInsert` | internal/driver/controllerserver.go:170-177 | A publish inserts one node into the set of listed nodes and keeps the list free of duplicates. |
| `AccessPolicies.WithoutIsRemove` | internal/driver/controllerserver.go:216-223 | An unpublish removes one node and keeps the list free of duplicates. |
| `AccessPolicies.PublishedNodeIDsParseBack` | internal/driver/controller_helpers.go:303-355 | The reported node IDs parse back to exactly the access list if the policy is enabled, and are empty otherwise. |
| `AccessPolicies.SquashReachesGoal` | internal/driver/controller_helpers.go:605-618 | An update is computed exactly when the policy differs from its goal, and leads to the goal, which needs no further update. |
| `AccessPolicies.SquashUpdateIsAccepted` | internal/driver/controller_helpers.go:614-618 | The API never rejects that update. |
| `AccessPolicies.GoalIsStable` | internal/driver/controller_helpers.go:605-613 | The goal is the goal of itself and does not depend on the status. |
| `LinodeContract.EmptyIsValid` | tests/sanity/fake_sanity_linode_client.go:40-66 | The new backend satisfies the representation invariant. |
| `LinodeContract.CreateKeepsValid` | tests/sanity/fake_sanity_linode_client.go:180-207 | Creating keeps it: the name index is the exact inverse of the filesystems, one policy and one root quota per filesystem, all IDs below the counters. |
| `LinodeContract.WaitForFilesystemKeepsValid` | tests/sanity/fake_sanity_linode_client.go:209-223 | Activating keeps it. |
| `LinodeContract.DeleteKeepsValid` | tests/sanity/fake_sanity_linode_client.go:225-242 | Deleting keeps it. |
| `LinodeContract.UpdateFilesystemKeepsValid` | tests/sanity/fake_sanity_linode_client.go:145-172 | Resizing keeps it, with the quota equal to the capacity. |
| `LinodeContract.UpdatePolicyKeepsValid` | tests/sanity/fake_sanity_linode_client.go:267-303 | Replacing a policy keeps it, with distinct, positive, known Linodes. |
| `LinodeContract.WaitForPolicyKeepsValid` | tests/sanity/fake_sanity_linode_client.go:305-319 | Settling a policy keeps it. |
| `LinodeContract.LookupIsUnique` | internal/driver/controller_helpers.go:464-485 | A lookup by a non-empty label finds at most one filesystem, the one in the name index, so that the branch for several matches is never taken. |
| `LinodeContract.QuotaIsUnique` | tests/sanity/fake_sanity_linode_client.go:128-143 | A live filesystem lists exactly one quota, a root quota of its own capacity. |
| `LinodeContract.SortedIsUnique` | tests/sanity/fake_sanity_linode_client.go:91-115 | The listing order is determined by the set of listed IDs. |
| `LinodeAPI.LinodeClient.ListFilesystems` | tests/sanity/fake_sanity_linode_client.go:91-115 | The object's call is the contract's function, behind any fault. |
| `LinodeAPI.LinodeClient.CreateFilesystem` | tests/sanity/fake_sanity_linode_client.go:180-207 | The same for creating, with its idempotent retry and its conflict. |
| `LinodeAPI.LinodeClient.WaitForFilesystem` | tests/sanity/fake_sanity_linode_client.go:209-223 | The same for waiting, which activates. |
| `LinodeAPI.LinodeClient.DeleteFilesystem` | tests/sanity/fake_sanity_linode_client.go:225-242 | The same for deleting. |
| `LinodeAPI.LinodeClient.DeleteQuotas` | tests/sanity/fake_sanity_linode_client.go:236-240 | The loop over the quota map removes exactly the quotas of one filesystem. |
| `LinodeAPI.LinodeClient.ListQuotas` | tests/sanity/fake_sanity_linode_client.go:128-143 | The same for listing quotas. |
| `LinodeAPI.LinodeClient.UpdateFilesystem` | tests/sanity/fake_sanity_linode_client.go:145-172 | The same for resizing, which rejects shrinking. |
| `LinodeAPI.LinodeClient.GetPolicy` | tests/sanity/fake_sanity_linode_client.go:254-263 | The same for reading a policy. |
| `LinodeAPI.LinodeClient.UpdatePolicy` | tests/sanity/fake_sanity_linode_client.go:267-303 | The same for replacing a policy, in the order of its checks. |
| `LinodeAPI.LinodeClient.ValidatePolicyUpdate` | tests/sanity/fake_sanity_linode_client.go:545-569 | The loop with its set of seen IDs accepts exactly distinct positive IDs and NFSv4. |
| `LinodeAPI.LinodeClient.WaitForPolicy` | tests/sanity/fake_sanity_linode_client.go:305-319 | The same for settling a policy. |
| `ControllerSteps.Run` | tests/sanity/fake_sanity_linode_client.go:145-319 | The backend invariant holds after every run of any RPCs. |
| `LockSafety.LockedKeysAreHeldKeys` | internal/driver/controllerserver.go:157-161 | In every run the locked keys are exactly those of the RPCs between acquire and release, one holder each; none is left when all have returned. |
| `VolumeFrames.StepFrame` | internal/driver/controllerserver.go:157-229 | What any step of any RPC may do to one filesystem: only policy writes and squash updates change its policy, only resizes its capacity, and never downwards. |
| `VolumeFrames.History` | tests/sanity/fake_sanity_linode_client.go:180-242 | A filesystem that is live in the end was live or not yet created all along; its label never changes, its capacity never shrinks. |
| `PolicySafety.EventIsAtomic` | internal/driver/controllerserver.go:163-184 | Each event performs its one insert or remove on the current policy, or leaves nodes and enabled as they are. |
| `PolicySafety.NoLostUpdate` | internal/driver/controllerserver.go:157-229 | In every run of such requests the policy is what the atomic inserts and removes make of the first one, in the order of the writes; label and protocols never change, an enabled policy stays enabled, no node is listed twice. |
| `PolicySafety.OneSpellingIsSafe` | internal/driver/controllerserver.go:157-161 | One spelling of the volume ID, any one, and no squash update are enough. |
| `PolicySafety.CanonicalIsSafe` | internal/driver/controller_helpers.go:144-146 | In particular the spelling that CreateVolume returns. |
| `LostUpdates.NoLostUpdateIff` | internal/driver/controllerserver.go:157-229 | No run over a set of requests loses an operation, if and only if different operations share a spelling and squash updates are harmless. |
| `LostUpdates.TwoOpsLose` | internal/driver/controllerserver.go:157-161 | For any two different operations under two spellings, of any kinds, a run from an initial state that loses one. |
| `LostUpdates.StaleSquashLoses` | internal/driver/controller_helpers.go:600-618 | In node mode, a run from an initial state in which an unlocked squash update undoes an accepted operation. |
| `LostUpdates.SpaceModeLoses` | internal/driver/controller_helpers.go:605-609 | In space mode, a run in which the squash update alone enables the policy. |
| `LostUpdates.LateWriteLoses` | internal/driver/controllerserver.go:179-184 | The theorem needs that a write takes effect during its call or never: with one spelling, too, a write that the API performed after the driver gave up on it would lose an operation. |
| `PolicySafety.UpdatesAreAccepted` | tests/sanity/fake_sanity_linode_client.go:545-557 | In every reachable state the pending update is rejected only if it publishes to an unknown Linode; the check for duplicates never fires. |
| `PolicySafety.SuccessIsReported` | internal/driver/controllerserver.go:392-400 | When a publish is about to succeed the reported status lists its node; when an unpublish is, it does not. |
| `QuotaSafety.CapacityGrows` | internal/driver/controllerserver.go:333-342 | Only the resize of an expand changes the capacity, to what it asked for, and only upwards. |
| `QuotaSafety.RootQuotaIsMonotone` | tests/sanity/fake_sanity_linode_client.go:145-172 | In every run, from any state, the root quota never decreases. |
| `QuotaSafety.ExpandAnswer` | internal/driver/controllerserver.go:288-347 | Which current capacities an expand accepts, and the resulting capacity, also for a negative one. |
| `QuotaSafety.ExpandIsReported` | internal/driver/controllerserver.go:325-347 | When expands that require different capacities share a spelling, the capacity that an expand is about to report is the root quota, in every run. |
| `StaleResizes.ResizesFitIffAgree` | internal/driver/controllerserver.go:301-342 | By the driver's lock and checks alone no resize about to be sent shrinks, in every run that starts without a negative capacity, if and only if resizes to different capacities share a spelling; an expand without a required capacity resizes only where a request may create a negative one. |
| `StaleResizes.ReportsHoldIffAgree` | internal/driver/controllerserver.go:325-347 | What an expand is about to report is the capacity, in every such run, if and only if in addition expands that require different capacities share a spelling. |
| `UndisturbedCalls.PolicyCallAnswer` | internal/driver/controllerserver.go:157-231 | One undisturbed publish or unpublish: its answer and the whole world after it. An early success keeps even the policy's status. |
| `UndisturbedCalls.UnpublishUndoesPublish` | internal/driver/controllerserver.go:144-232 | Unpublishing a freshly published node gives back the access list as it was, and changes nothing else but enabled and status. |
| `UndisturbedCalls.ExpandCallAnswer` | internal/driver/controllerserver.go:276-348 | An undisturbed expand succeeds if and only if there is no limit or the current capacity is not above it, with the larger of the current and the required capacity, which is then the root quota. |
| `UndisturbedCalls.DeleteCallAnswer` | internal/driver/controllerserver.go:121-142 | An undisturbed delete of any non-empty ID succeeds: the filesystem is gone, its name is free, all others are as before, and a second delete changes nothing. |
| `ControllerAnswers.PublishAnswer` | internal/driver/controllerserver.go:144-187 | An undisturbed publish, every request and every state: InvalidArgument, Aborted, NotFound or success, and the policy after it, by the fields. |
| `ControllerAnswers.UnpublishAnswer` | internal/driver/controllerserver.go:189-232 | The same for unpublishing; a missing filesystem or node is a success that changes nothing. |
| `ControllerAnswers.ExpansionAnswer` | internal/driver/controllerserver.go:276-348 | The same for expanding, with the accepted ranges in plain terms, the capacity answered, and nothing else changed. |
| `ControllerAnswers.RootQuotaDecides` | internal/driver/controllerserver.go:311-342 | What any listing of quotas leads to: the first root quota decides, if it has a capacity. |
| `ControllerAnswers.DeleteAnswer` | internal/driver/controllerserver.go:121-142 | A delete, every request, every state and every fate of its call. |
| `ControllerAnswers.GetAnswer` | internal/driver/controllerserver.go:372-401 | A get, every request and every state: the fields of the volume, and node IDs that parse back to the access list if the policy is enabled. |
| `ControllerAnswers.GetReportsSuccess` | internal/driver/controllerserver.go:392-400 | When a publish is about to succeed, a get made at that moment reports its node; when an unpublish is, it does not. |
| `StepAnswers.TakenKeyAborts` | internal/driver/controllerserver.go:157-161 | Exactly the requests with good fields whose key is taken are aborted, without any change; the others with good fields take it. |
| `StepAnswers.AnswersHaveOrigins` | internal/driver/controllerserver.go:157-187 | From which steps each answer may come: success of a publish or expand only from the release of its lock. |
| `StepAnswers.FaultsAreErrors` | internal/driver/controller_helpers.go:357-392 | Every lost call ends its RPC with the code of the fault, having changed nothing, or just what the call does. |
| `StepAnswers.MissingIsNotFound` | internal/driver/controllerserver.go:205-213 | A missing filesystem is NotFound at every call, but a success of deleting and of reading for an unpublish. |
| `RunAnswers.AnswersComeFromSteps` | internal/driver/controllerserver.go:144-232 | Over all runs, each answer was given in a step from which it may come. |
| `RunAnswers.AbortedMeansContention` | internal/driver/controllerserver.go:157-161 | Over all runs, whoever was aborted found its key held by another RPC. |
| `RunAnswers.AnsweredSuccessWasEffective` | internal/driver/controllerserver.go:144-232 | Over all runs of safe requests, each success of a publish or unpublish was true of the policy when it was given. |
| `RunAnswers.AnsweredCapacityWasQuota` | internal/driver/controllerserver.go:325-347 | Over all runs, an answered capacity was the root quota when it was given, where expands agree. |
| `ProvisioningSafety.CreateVolumeIsIdempotent` | internal/driver/controllerserver.go:74-118 | Over all cut and interleaved runs of peaceful requests: no AlreadyExists, all successes return the same volume, with capacities inside the range, which is the one filesystem of the label. |
| `ProvisioningSafety.RetryAfterAnyRun` | internal/driver/controllerserver.go:76-118 | After any such run an undisturbed retry succeeds, with the volume of every earlier success. |
| `ProvisioningProgress.DeliveredCallsSucceed` | internal/driver/controllerserver.go:39-119 | In every run of peaceful requests whose calls are all delivered, each answerable request that has returned has succeeded. |
| `ProvisioningSafety.LabelsAreUnique` | tests/sanity/fake_sanity_linode_client.go:180-207 | No label is ever given to two filesystems. |
| `ProvisioningSafety.CreateVolumeAnswer` | internal/driver/controllerserver.go:39-119 | An undisturbed call creates a missing filesystem, returns an acceptable one, and rejects any other with AlreadyExists. |
| `ProvisioningSafety.CreatedCapacityIsCompatible` | internal/driver/controller_helpers.go:211-231 | The capacity that is requested passes the later check if and only if the required capacity fits under the limit. |
| `ProvisioningSafety.RetrySucceedsIffWellFormed` | internal/driver/controller_helpers.go:532-561 | A retry of a first creation returns the same volume if and only if the capacity range is well-formed. |
| `CreateAnswers.CreateRefusal` | internal/driver/controllerserver.go:42-65 | What each request is refused for before the first call on the API. |
| `CreateAnswers.CreateAnswer` | internal/driver/controllerserver.go:66-119 | An undisturbed CreateVolume, every request and every state: the codes of all refusals, or the filesystem that was found or created, active, with its policy reconciled, all else unchanged, and the volume that describes it. |
| `CreateAnswers.RacingCreateAnswer` | tests/sanity/fake_sanity_linode_client.go:180-207 | What becomes of a create whose label became known since the lookup. |
| `CreateAnswers.TargetIsRequired` | internal/driver/controller_helpers.go:291-301 | Exactly the filesystems without a usable target are refused. |
| `CreatedVolumes.AnsweredVolumeWasActive` | internal/driver/controller_helpers.go:269-289 | Over all runs, an answered volume is a filesystem that was active and of the request's label: its handle, capacity, targets and region, and the mTLS mode of the space. |
| `CreatedVolumes.AnsweredSquashWasInPlace` | internal/driver/controller_helpers.go:517-530 | Over all runs, success with a squash policy is answered only from the wait for it, with the goal in place where requests agree. |
| `VolumeContexts.StagesWhatWasCreated` | internal/driver/nodeserver.go:93-118 | Staging with an answered context mounts the source that the controller answers for; without mTLS never if the space requires it, and not at first if it is optional. |
| `SquashReconciliation.PassReachesGoal` | internal/driver/controller_helpers.go:600-632 | One pass over any faults changes nothing but this policy, which ends as it was or as the goal; success means the active goal; without faults it succeeds. |
| `SquashReconciliation.SuccessByMode` | internal/driver/controller_helpers.go:605-623 | What the success of one undisturbed pass means by mode: enabled with an empty list in space mode, state and non-zero IDs kept in node mode; label and protocols kept. |
| `SquashReconciliation.WritesIffNotGoal` | internal/driver/controller_helpers.go:611-619 | An update is sent if and only if the policy differs from its goal. |
| `SquashReconciliation.RetryReachesSameGoal` | internal/driver/controller_helpers.go:600-623 | However the first pass was cut, a second one reaches the same goal; after a success it writes nothing. |
| `Ownership.StagesFitRequests` | internal/driver/controller_helpers.go:464-561 | In every run a CreateVolume that waits for a filesystem or reconciles its policy has its label, names its space and, once past the check, has its tags. |
| `SquashSafety.SuccessfulSquashStays` | internal/driver/controller_helpers.go:600-632 | One direction, for one run: the policy is what the request made of the first policy, in space mode enabled with an empty list, in node mode with the same nodes. |
| `SquashRaces.SquashesHoldIffAgree` | internal/driver/controller_helpers.go:600-632 | In every run each CreateVolume about to succeed has its squash policy in place, and its whole goal, if and only if those who may come to reconcile one filesystem ask for the same one and nothing operates on its nodes then. |
| `SquashRaces.TwoSquashesClash` | internal/driver/controller_helpers.go:600-618 | The other: for any two such requests for different squash policies, a run in which the first is about to succeed with the second's in place. |
| `SquashRaces.StaleOperationUndoesSquash` | internal/driver/controller_helpers.go:408-419 | And a run in which a publish or unpublish decided before writes back the old squash policy. |
| `Controller.PolicyLinodeIDs` | internal/driver/controller_helpers.go:331-343 | The loop computes the non-zero IDs in order. |
| `Controller.DeleteID` | internal/driver/controllerserver.go:221-223 | The deletion in place keeps exactly the other IDs, in order. |
| `Controller.PrintNodeIDs` | internal/driver/controller_helpers.go:345-355 | The loop prints the IDs in order. |
| `Controller.FindRootQuota` | internal/driver/controllerserver.go:311-320 | The loop finds the first root quota. |
| `Controller.CheckMountTarget` | internal/driver/controller_helpers.go:291-301 | The loop accepts exactly filesystems with an FQDN or a usable target. |
| `Controller.ControllerServer.ControllerPublishVolume` | internal/driver/controllerserver.go:144-187 | The method is the whole uninterrupted run of its step machine, under any faults: same final backend, locks and answer. |
| `Controller.ControllerServer.PublishLocked` | internal/driver/controllerserver.go:163-186 | The part under the lock comes to the release with this answer. |
| `Controller.ControllerServer.ControllerUnpublishVolume` | internal/driver/controllerserver.go:189-232 | The same for unpublishing. |
| `Controller.ControllerServer.UnpublishLocked` | internal/driver/controllerserver.go:205-231 | The part under the lock. |
| `Controller.ControllerServer.ControllerExpandVolume` | internal/driver/controllerserver.go:276-348 | The same for expanding. |
| `Controller.ControllerServer.ExpandLocked` | internal/driver/controllerserver.go:307-347 | The part under the lock. |
| `Controller.ControllerServer.DeleteVolume` | internal/driver/controllerserver.go:121-142 | The same for deleting. |
| `Controller.ControllerServer.ControllerGetVolume` | internal/driver/controllerserver.go:372-401 | The same for reading a volume and its published nodes. |
| `Controller.ControllerServer.CreateVolume` | internal/driver/controllerserver.go:39-119 | The same for creating, with the region taken from the cache. |
| `Controller.ControllerServer.HandleExisting` | internal/driver/controller_helpers.go:532-561 | The branch of an existing filesystem: wait, check capacity and tags, finalize. |
| `Controller.ControllerServer.SetInitialSquashPolicy` | internal/driver/controller_helpers.go:600-623 | The squash reconciliation as written. |
| `RegionCache.RegionFromNode` | internal/driver/metadata.go:262-275 | A node has a region if and only if one of its two labels is non-empty: the value of the current label, or else of the beta one. |
| `RegionCache.MetadataService.Region` | internal/driver/metadata.go:195-215 | One call: what is cached, which list is asked for and what is answered. |
| `RegionCache.RegionOverRuns` | internal/driver/metadata.go:195-215 | Over any sequence of answers: calls fail up to the first list that names a region, then all return that non-empty region, and no list is requested after it. |
| `MountTable.RootIsEnd` | tests/sanity/fake_sanity_mounter.go:151-165 | If the chain of sources ends, the root is its one unmounted end. |
| `MountTable.RootIsOnCycle` | tests/sanity/fake_sanity_mounter.go:151-165 | Otherwise the root is a path on the cycle that the chain runs into. |
| `MountTable.MountOnFreshTarget` | tests/sanity/fake_sanity_mounter.go:49-77 | Mounting on a fresh target keeps the table acyclic if and only if the target is not the source's root; it then has that root, and all other roots follow. |
| `MountTable.UnmountKeepsAcyclic` | tests/sanity/fake_sanity_mounter.go:79-88 | Unmounting keeps the table acyclic. |
| `MountTable.BindAddsOneRef` | tests/sanity/fake_sanity_mounter.go:134-149 | A bind mount adds exactly its target to the references of its source. |
| `HostMounter.SanityMounter.Mount` | tests/sanity/fake_sanity_mounter.go:49-77 | The new table and the outcome: an identical mount succeeds again, a different one fails. |
| `HostMounter.SanityMounter.Unmount` | tests/sanity/fake_sanity_mounter.go:79-88 | Removes the cleaned path. |
| `HostMounter.SanityMounter.IsLikelyNotMountPoint` | tests/sanity/fake_sanity_mounter.go:113-132 | Reports the state of the cleaned path, a missing path or a failure. |
| `HostMounter.SanityMounter.MountRoot` | tests/sanity/fake_sanity_mounter.go:151-165 | The loop ends on every table and finds the root. |
| `HostMounter.SanityMounter.GetMountRefs` | tests/sanity/fake_sanity_mounter.go:134-149 | Finds exactly the other mounts of the same root, sorted. |
| `Text.SortedIsUnique` | tests/sanity/fake_sanity_mounter.go:147-148 | A sorted listing is determined by what it lists. |
| `NodeSafety.NodeKeysAreHeldKeys` | internal/driver/nodeserver.go:101-104 | In every run the locked keys are exactly those of the node RPCs between acquire and release; none is left at the end. |
| `NodeSafety.NoStackedMounts` | internal/driver/nodeserver.go:101-118 | A set of requests never mounts on a mounted path, in any run, if and only if those that would mount at one place share a lock. |
| `NodeSafety.AgreementPreventsStacking` | internal/driver/nodeserver.go:168-185 | One direction, for one run, with failed publishes cleaning up staging paths at any time. |
| `NodeSafety.DisagreementStacks` | internal/driver/nodeserver.go:168-185 | The other direction: a run that stacks. |
| `NodeSafety.OrderlyPathsAgree` | internal/driver/nodeserver.go:101-118 | Cleaned paths, one volume per staging path and staging paths apart from target paths are enough. |
| `NodeSafety.StagingFollowsMode` | internal/driver/nodeserver_helpers.go:99-117 | In every run the mount calls of a staging RPC have the rewritten flags, plus the mTLS option exactly if required or on the first optional attempt; the plain attempt comes only after that one failed. |
| `NodeSafety.RequiredMeansSecure` | internal/driver/nodeserver_helpers.go:99-101 | An RPC for a volume whose mode requires mTLS never makes a mount call without it. |
| `NodeSafety.RequiredPlacesAreSecure` | internal/driver/nodeserver_helpers.go:99-117 | A place that starts unmounted, and that only such requests mount, is in every run unmounted or mounted with mTLS. |
| `NodeSafety.PublishingBinds` | internal/driver/nodeserver_helpers.go:43-59 | A publish makes at most one call, a bind mount of its staging path, read-only exactly when asked for. |
| `NodeAnswers.FirstStepAnswers` | internal/driver/nodeserver.go:75-104 | Exactly the bad requests are refused and exactly the good ones with a taken key aborted, without any change. |
| `NodeAnswers.RefusedAnswer` | internal/driver/nodeserver.go:147-172 | The same for whole calls of all four RPCs. |
| `NodeAnswers.StageAnswer` | internal/driver/nodeserver.go:75-119 | A stage, every state and all outcomes on the host: what it answers and mounts, for mounted, unmounted and missing paths. |
| `NodeAnswers.PublishAnswer` | internal/driver/nodeserver.go:147-186 | The same for a publish, with the clean-up of the staging path when its mount fails. |
| `NodeAnswers.CleanUpAnswer` | internal/driver/nodeserver.go:121-145 | The same for unstaging and unpublishing. |
| `NodeAnswers.MountedAlready` | tests/sanity/fake_sanity_mounter.go:66-74 | A mount call on a mounted place changes nothing and succeeds only if the same mount is there. |
| `NodeAnswers.StagingCallsAreStaging` | internal/driver/nodeserver_helpers.go:70-118 | In every run staging calls mount what the context names, with the given flags or the defaults, their tokens rewritten, and mTLS as the mode says. |
| `NodeAnswers.NodeAnswersComeFromSteps` | internal/driver/nodeserver.go:101-104 | Over all runs success comes only from the release of the lock, and Aborted only from a key held by another RPC. |
| `NodeAnswers.AnsweredSuccessWasTrue` | internal/driver/nodeserver.go:101-118 | Over all runs of requests that share locks, an answered success was true of its place when it was given. |
| `NodeSuccess.SuccessIsTrueIff` | internal/driver/nodeserver.go:101-118 | Every success at a place is true of the mount table when it is about to be returned, in every run, if and only if each request that may mount the place shares its lock with each that may unmount it. |
| `NodeSuccess.SharedLocksKeepTruth` | internal/driver/nodeserver.go:101-118 | One direction, for one run. |
| `NodeSuccess.SeparateLocksDeceive` | internal/driver/nodeserver_helpers.go:59-65 | The other: a run in which a success is false. |
| `NodeSuccess.PublishesUnstage` | internal/driver/nodeserver_helpers.go:61 | A success of staging is not safe from a publish of the same staging path. |
| `NodeSuccess.FailedPublishUnstages` | internal/driver/nodeserver_helpers.go:59-65 | A publish whose mount fails unmounts the staging path without the volume's lock. |
| `MountLayers.TargetsLeadToServers` | internal/driver/nodeserver_helpers.go:57-117 | In every run of orderly requests the mount table stays acyclic, and a mounted target leads to an NFS server exactly as long as its staging path is mounted. |
| `MountLayers.LayeredRoots` | tests/sanity/fake_sanity_mounter.go:151-165 | In a layered table every path leads through at most two mounts. |
| `Node.NodeServer.EnsureMountPoint` | internal/driver/nodeserver_helpers.go:20-36 | The check and the creation of the directory come to the step machine's next stage. |
| `Node.NodeServer.NodeStageVolume` | internal/driver/nodeserver.go:75-119 | The method is the whole uninterrupted run of its step machine, under any host failures. |
| `Node.NodeServer.StageLocked` | internal/driver/nodeserver.go:106-118 | The part under the lock: check, create the directory, mount. |
| `Node.NodeServer.BuildOptions` | internal/driver/nodeserver_helpers.go:77-98 | The options before mTLS: the flags or the defaults, rewritten in place. |
| `Node.NodeServer.Stage` | internal/driver/nodeserver_helpers.go:70-118 | The mount calls in sequence, with the mTLS fallback. |
| `Node.NodeServer.NodeUnstageVolume` | internal/driver/nodeserver.go:121-145 | The same for unstaging. |
| `Node.NodeServer.NodePublishVolume` | internal/driver/nodeserver.go:147-186 | The same for publishing. |
| `Node.NodeServer.Publish` | internal/driver/nodeserver_helpers.go:38-68 | The bind mount, and the clean-up of the staging path when it fails. |
| `Node.NodeServer.NodeUnpublishVolume` | internal/driver/nodeserver.go:188-215 | The same for unpublishing. |

## Left out

- Snapshots, clones and pagination: the code is commented out; only the snapshot handles and the answers to a snapshot source are modelled.
- `ValidateVolumeCapabilities`, `GetCapacity`, `ListVolumes`, `NodeGetInfo`, `NodeGetVolumeStats`, `NodeExpandVolume` and capability lists: single-branch answers.
- The parsing of StorageClass parameters: a request carries them parsed, or not at all when they are invalid; only valid squash policies can be written down.
- Capability checks: a request says whether its capabilities are supported; the reader-only access modes are one flag.
- Error messages, logs, timestamps and the nil checks of constructors: errors are status codes only.
- Waiting and time: a wait is one call that succeeds, fails, expires or is cancelled.
- Bytes and UTF-8: texts are sequences of characters and labels are about ASCII names; cutting inside a multi-byte character is not modelled.
- Integer width: Linode, filesystem and quota IDs and capacities are unbounded, except where text is parsed (`Atoi` is 64-bit).
- JSON list filters: a filter is an exact match of its fields, and an empty value matches everything.
- The mutexes of the client, of the lock set, of the mounter and of the region cache: each of their calls is one step.
- Request contexts: a call of `Region` that is cancelled while waiting counts as a failed list.
- The sanity-test client is generalised: one space with any label and mTLS mode, one region, any set of known Linodes, and faults on every call.
- `NodeSafety.NoStackedMounts`: a failing mount call is taken to leave the mount table unchanged; a mount command that mounts and then reports failure is outside the model.
- `HostMounter.SanityMounter.CleanupMountPoint`: the library's check, unmount and removal of the directory are one step, which may also leave the directory behind.
- `HostMounter.SanityMounter.IsLikelyNotMountPoint`: may also fail on a mounted path, as a real mounter can; directories are not tracked.
- `LinodeAPI.SortIDs`: sorting by ID is an insertion sort, the library's algorithm is not part of this model.
- `ProvisioningSafety.CreateVolumeIsIdempotent`: supposes a non-empty label, a well-formed range, and requests that neither delete the filesystem of that label nor may resize it out of the range; a request for a filesystem that may still be created counts as one for this filesystem.
- Late effects: a call takes effect while it is made or never. A write that reaches the API after the driver gave up on it is outside the runs; `LostUpdates.LateWriteLoses` shows what it could do.
