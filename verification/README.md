# Verified model of Amsonia Core

This project models the stateful cores of the repository in Dafny and proves what they promise. The modules follow the
program:

* **File publication** (`FileSystem`, `Publication`, `Publisher`, `PublisherRuns`, `Paths`, `Parents`, `Manifests`,
  `Sync`, `SyncRun`): the transaction of `internal/coresync` over a file system of names and inodes, in which every
  primitive may fail at every call. `Publisher` is the code, `Publication` the relation between the flags of its items
  and the tree that all of its proofs rest on, `PublisherRuns` three runs in which it falls short, and `SyncRun` the
  whole of `Sync` from manifest to published tree.
* **Authorization kernel** (`Policy`, `Authorizer`, `GrantGraph`, `Tenancy`, `Effects`, `TenantInvariants`,
  `Delegation`, `AdminCoverage`, `MemoryStore`, `Manager`, `Store`): `Tenancy` gives every operation as a function on
  the tables of a tenant, `MemoryStore`, `Manager` and `Store` are the code over nested tables of heap objects, which
  it writes in place, and its clone-and-swap transaction, proved to compute those functions and to share nothing with
  what is committed, `Effects` says what each command changes and which answer it gets, and `TenantInvariants` and
  `Delegation` prove what every run keeps.
* **Core layer** (`CoreTenancy`, `CoreEffects`, `CoreStore`): the guarded store and member management on top of it.
* **Credentials** (`Credentials`, `CredentialEffects`, `CredentialSafety`, `CredentialRuns`, `CredentialStore`):
  accounts, access and refresh sessions and recoveries; every transaction as one step, Login as two; `CredentialStore`
  performs them statement by statement.
* **Smaller cores**: the migration runner (`Migrations`), paging and the audit log (`Paging`, `Directories`, `Audit`,
  `AuditExport`), stored password hashes (`Codecs`, `Passwords`) and the canonical tenant export (`TenantExport`,
  `Ordering`).

`dafny verify dfyconfig.toml` checks everything.

## What the results depend on

* File system: nobody else writes inside the roots, a failed primitive changes nothing, errors other than "does not
  exist" and "exists" are not taken for those, names in a directory refer to one inode each, and directories form a
  tree. Which calls fail and which random suffixes are drawn is fixed before a run and unknown: `fate` says of each
  call whether it fails, and `suffixes` gives the draws, each of 32 hexadecimal digits. All results hold for any of
  both. A random name that is in use counts as a mishap like a failed call.
* Decoding an encoded provenance record gives it back, and digests have 64 hexadecimal digits. Nothing else is assumed
  about JSON and SHA-256; Argon2id is any function that returns a key of the requested length.
* Each SQL transaction is one atomic step, since all of them lock the account or tenant row first. Tokens stand for
  their hashes and random identifiers are new. A step has one clock reading, where the code may read the clock more
  than once in a transaction; readings of different steps are unrelated, so clocks may jump.
* Whether a password matches, whether a member is eligible for a recovery, and lower-casing, number and time formats
  and CSV quoting are parameters; a reader of the audit export is any function that undoes the quoting.
* Strings are sequences of Unicode scalar values. Case folding covers the letters whose folding meets an ASCII letter.

## Where the code does less than one might expect

* A rollback that reports no error can leave one staged file behind. `createStagedFile` removes nothing when the first
  inspection of the new file fails, so one failed call is enough, and it drops the error of the removal after a later
  failure. `Publisher.PublishTransaction` says exactly which failed calls leave which file,
  `PublisherRuns.LeavesStagedFile` is such a run. All targets are still back. The file can keep a created directory
  from being removed, and then the close error is the only trace of it.
* The target of a new file can be a name that is drawn for an artifact in its directory. If that artifact exists at
  the turn of the file, publication fails and is rolled back (`PublisherRuns.TargetTaken`); without a failed call this
  is the only reason, stated exactly on the draws in `Publisher.Blocked` and on the inputs of a run in
  `SyncRun.Unlucky`.
* If a new provenance file has such a name, it can appear while other files are missing
  (`PublisherRuns.ProvenanceFirst`). Otherwise it is the last to change, save when a rollback itself fails
  (`SyncRun.Run`). Without a failed call the condition is exact (`Publisher.OrderedExactly`), as long as not every
  other file is new and has a drawn name as well, for then those may look complete early.
* Adding a grant can take an allow away when the membership reader fails, because workspace grants are evaluated
  before own-scope ones (`Authorizer.MoreGrants` has the exact condition).
* The two implementations of reachability differ when both subjects are the same and lie on no cycle
  (`GrantGraph.AdaptersAgree`). `AssignRole` never asks that question.
* The final administrator check of the Core wrapper never fires (`CoreTenancy.PostCheckRedundant`).
* A migration recorded before checksums were tracked takes the checksum of whatever the binary ships under its name,
  so the schema is known to match the shipped list only for lists that extend one another.

## Model

| member | source | states |
|---|---|---|
| `Publisher.PublishTransaction` | internal/coresync/sync.go:708-752 | All publication files, whichever primitive fails. A nil error means every target is new with the desired content and nothing else changed; an error without a rollback error means every managed target is back on its original inode and only leftovers remain; a clean rollback restores exactly the names the tree had, less the directories created for it and save a staged file left behind. After any error of publication, a failed rollback included, every state on the way kept every original linked; otherwise there is a point up to which every state did and from which every target is new. Which staged file is left behind follows exactly from the calls that failed. Every part of the joined error has a failed call or name clash of its own behind it, unless the target of a new file was drawn as an artifact name or a staged file left behind keeps a created directory alive. When nothing fails, the result is nil exactly unless the target of a new file is the name of an artifact at that moment, and new provenance is shown last exactly unless its name was drawn |
| `Publisher.OrderedExactly` | internal/coresync/sync.go:271-278 | When nothing fails and some other file waits for its own time: the provenance file is the last to change exactly if its name, when new, was not drawn for an artifact |
| `Publisher.ProvenanceWithdrawn` | internal/coresync/sync.go:1125-1152 | Once nothing is published, the provenance file is as it was, unless an artifact has its name |
| `Publisher.StageAll` | internal/coresync/sync.go:720-729 | Staging creates one artifact per item under a drawn name and touches nothing else; every state keeps every original linked; when nothing fails, the names are those drawn in order; the staged file left behind follows from the failed calls |
| `Publisher.StageItem` | internal/coresync/sync.go:720-729 | One staging round: the item owns its artifact or nothing, and a failure costs a mishap |
| `Publisher.CreateStagedFile` | internal/coresync/sync.go:872-918 | The staged file has a fresh inode under an unused drawn name with the desired content and mode, or the tree has its old names. The one exception is exactly a file whose first inspection failed, or one on which a later call failed and then its removal as well |
| `Publisher.CompleteStagedFile` | internal/coresync/sync.go:885-915 | After the creation: the inspection whose failure ends the attempt with no removal, and the filling whose failure ends it with one |
| `Publisher.FillStagedFile` | internal/coresync/sync.go:892-915 | Chmod, write, sync and the inspection touch only the new inode; a failure names the call on this file that failed |
| `Publisher.PublishAll` | internal/coresync/sync.go:731-737 | The published items are always a prefix; every published managed item has a confirmed backup; an unconfirmed backup costs two mishaps; when nothing fails, it fails exactly if the target of some new file is the name of an artifact that exists at its turn |
| `Publisher.PublishNext` | internal/coresync/sync.go:731-737 | One round of it |
| `Publisher.TakenByArtifact` | internal/coresync/sync.go:955-957 | The target of a new file is taken exactly if some artifact that exists at its turn has its name |
| `Publisher.TakenIsBlocked` | internal/coresync/sync.go:1052-1058 | The same in terms of the drawn suffixes |
| `Publisher.PublishStaged` | internal/coresync/sync.go:731-751 | Publication, validation and clean-up or rollback after staging, with the same promises |
| `Publisher.PublishItem` | internal/coresync/sync.go:920-963 | An item is published exactly when the call succeeds; every state passed keeps the original inode of every managed target linked at its target or at a backup beside it, and without a mishap it fails only when the target of a new file is taken |
| `Publisher.SecureOriginal` | internal/coresync/sync.go:933-943 | The backup of a managed target is made and checked again, with every original linked all along |
| `Publisher.MoveIntoPlace` | internal/coresync/sync.go:947-958 | The rename over a managed target and the link of a new one keep the ownership relation; on failure nothing moved |
| `Publisher.CreateBackup` | internal/coresync/sync.go:988-1013 | A backup link to the original inode that was checked against the live target, or an error; a backup left behind by the error costs two mishaps |
| `Publisher.LinkBackup` | internal/coresync/sync.go:988-999 | The backup name is unused and links the original inode of the target |
| `Publisher.ConfirmBackup` | internal/coresync/sync.go:1000-1013 | The confirmed inode is the original one, with the inspected content and mode |
| `Publisher.DiscardBackup` | internal/coresync/sync.go:1015-1033 | After a nil result the backup is gone and forgotten; the item itself stays unpublished and every original linked |
| `Publisher.DropBackup` | internal/coresync/sync.go:1026-1033 | Exactly the backup link goes, or nothing |
| `Publisher.InspectBackup` | internal/coresync/sync.go:1018-1025 | A backup that was never confirmed gets its inode on record before its removal |
| `Publisher.UniqueUnusedName` | internal/coresync/sync.go:1035-1050 | The returned backup name is a drawn name that is free; running out of attempts takes that many taken names |
| `Publisher.ReadRegular` | internal/coresync/sync.go:635-684 | In an open directory: absence, or the inode with the content and mode it has; an error means a failed call, a missing file that must exist, or no regular file |
| `Publisher.ValidateFile` | internal/coresync/sync.go:1074-1083 | Accepts exactly the expected inode with the expected content and mode, unless a call fails |
| `Publisher.ValidateStaged` | internal/coresync/sync.go:1060-1065 | The staged artifact is checked only while it exists, and accepted exactly if it is intact |
| `Publisher.ValidateBackup` | internal/coresync/sync.go:1067-1072 | The backup is accepted exactly if it is intact and was confirmed |
| `Publisher.ValidateTarget` | internal/coresync/sync.go:965-986 | A target that still matches its inspection is refused only when a call fails |
| `Publisher.ValidateDirectories` | internal/coresync/sync.go:837-845 | Accepts exactly when every opened directory is still entered at its name, unless a call fails |
| `Publisher.ValidatePublished` | internal/coresync/sync.go:1085-1112 | A transaction that published everything passes its final validation unless a call fails |
| `Publisher.Rollback` | internal/coresync/sync.go:1114-1123 | Without a rollback error all targets are back; with one, every original is still linked, in every state and at the end; a rollback error, a clean-up error and a close error each need a mishap of their own |
| `Publisher.RollbackItems` | internal/coresync/sync.go:1125-1152 | Walks the items backwards; after a nil result nothing is published and no backup is left; provenance is withdrawn first |
| `Publisher.RestoreManaged` | internal/coresync/sync.go:1171-1193 | The item stops being published exactly when the original inode is back at its target |
| `Publisher.RemoveNewTarget` | internal/coresync/sync.go:1154-1169 | The item stops being published exactly when its target name is free again |
| `Publisher.DiscardUnpublished` | internal/coresync/sync.go:1195-1207 | An unpublished backup is removed, and with a confirmed backup only a failed call prevents it |
| `Publisher.RemoveArtifacts` | internal/coresync/sync.go:1209-1228 | After a nil result no staged file and no backup is left; published flags stay |
| `Publisher.RemoveBackupArtifact` | internal/coresync/sync.go:1212-1218 | The backup flag is cleared exactly when the link is gone |
| `Publisher.RemoveStagedArtifact` | internal/coresync/sync.go:1219-1225 | The staged flag is cleared exactly when the name is gone |
| `Publisher.RemoveArtifactIfUnchanged` | internal/coresync/sync.go:1230-1245 | A nil result removes exactly this name, or nothing if there was nothing to remove; an error changes nothing |
| `Publisher.CloseDirectories` | internal/coresync/sync.go:847-870 | Removes only directories created for the transaction, all of them after a nil result, from the deepest up |
| `Publisher.FinishRollback` | internal/coresync/sync.go:1114-1123 | After nothing is published any more: artifacts and then created directories go, every original stays linked, and all targets are old; a close error without a mishap needs a staged file left behind in a created directory |
| `Publisher.StateGood` | internal/coresync/sync.go:988-1033 | A state in which flags and tree agree keeps every original linked, or after validation has every target new, and shows new provenance only when every file is new, unless its name was drawn |
| `Publisher.LoggedStands` | internal/coresync/sync.go:889-891 | The removals of a rollback concern other names, so they do not change which staged file was left behind |
| `Publisher.DirsAreHarmless` | internal/coresync/sync.go:847-870 | Removing created directories unlinks no original and does not disturb the order |
| `PublisherRuns.LeavesStagedFile` | internal/coresync/sync.go:885-889 | A run in which one call fails, the rollback reports no error of its own, and a staged file is left behind |
| `PublisherRuns.ProvenanceFirst` | internal/coresync/sync.go:271-278 | A run without a failed call that shows new provenance while another file is missing, because its name was drawn |
| `PublisherRuns.TargetTaken` | internal/coresync/sync.go:955-957 | A run without a failed call that does not publish, because the target is the name of its own staged file |
| `Publication.StepKeepsRelation` | internal/coresync/sync.go:337-352 | The ownership relation between the flags of all items and the tree survives any step of one item |
| `Publication.OthersKeepTheirNames` | internal/coresync/sync.go:337-352 | A step of one item never takes a name that another item owns |
| `Publication.StageStep` | internal/coresync/sync.go:720-729 | Staging is such a step |
| `Publication.BackupStep` | internal/coresync/sync.go:988-1013 | Linking a backup is such a step |
| `Publication.PublishManagedStep` | internal/coresync/sync.go:951-954 | Renaming the staged file over a managed target is such a step |
| `Publication.PublishNewStep` | internal/coresync/sync.go:955-957 | Linking the staged file to a free target is such a step |
| `Publication.RestoreStep` | internal/coresync/sync.go:1171-1193 | Renaming the backup over the target is such a step |
| `Publication.RelatedIsSafe` | internal/coresync/sync.go:988-1033 | While backups of published items are kept, the original inode of every managed target is linked at its target or at a backup beside it |
| `Publication.RelatedIsOrdered` | internal/coresync/sync.go:271-278 | While the published items are a prefix, the provenance file differs only when every managed file is new, unless it is new itself and its name was drawn for an artifact |
| `Publication.StagedTooSoon` | internal/coresync/sync.go:872-882 | A staged file that is given the name of new provenance shows it too soon while some other file waits |
| `Publication.BackedUpTooSoon` | internal/coresync/sync.go:988-999 | So does a backup, because the file that it backs up waits itself |
| `Publication.RelatedDifference` | internal/coresync/sync.go:1125-1152 | Whatever the flags, only targets and new artifact names differ from the start |
| `Publication.CleanSuccess` | internal/coresync/sync.go:748-751 | With everything published and no artifact left, the targets are new and every other name is as before |
| `Publication.RolledBack` | internal/coresync/sync.go:1125-1152 | With nothing published, every managed target has its original inode and only artifacts differ |
| `Publication.CleanRollback` | internal/coresync/sync.go:1114-1123 | With no artifact left either, the names are exactly those of the start and no stored file changed |
| `Paths.TextDeterminesPath` | internal/coresync/sync.go:438-446 | Different safe paths have different texts |
| `Paths.ValidatePathCollisions` | internal/coresync/sync.go:417-436 | Accepts exactly the lists in which no path equals another one or is an ancestor of it |
| `Paths.PrefixFreeExactly` | internal/coresync/sync.go:423-434 | No duplicate and no listed ancestor is the same as no path being a prefix of another |
| `Paths.ReadPath` | internal/coresync/sync.go:635-706 | By path, component by component: missing, or the inode with its content and mode; without a failed call an error means that the path leads to no regular file, or to nothing when it must exist |
| `Paths.OnePath` | internal/coresync/sync.go:754-792 | A directory is reached by one path only |
| `Paths.DirectoryStays` | internal/coresync/sync.go:837-845 | While directory entries stay, a path leads to the same directory |
| `Paths.DirectoryStaysOrGoes` | internal/coresync/sync.go:847-870 | While directories may only go, a path leads to the same directory or nowhere |
| `Parents.OpenParents` | internal/coresync/sync.go:754-792 | On success every parent directory of a target is open under its path, and the tree gained exactly the recorded created directories; on failure at most directories were added; without a failed call it fails only if a target lies below something that is no directory |
| `Parents.OpenComponent` | internal/coresync/sync.go:794-835 | Enters the existing directory or creates a new one; after an error at most this one directory was added |
| `Parents.Abandon` | internal/coresync/sync.go:773-777 | Closing after a failure removes created directories only |
| `Parents.OpeningExtends` | internal/coresync/sync.go:779-781 | Opening one more component keeps everything known about the opened directories |
| `Parents.OpenedValid` | internal/coresync/sync.go:847-870 | The opened directories have distinct names, are entered where they were opened, and a created one holds only directories created later |
| `Parents.CreatedHoldCreated` | internal/coresync/sync.go:847-870 | Removing created directories in reverse finds each of them empty |
| `Parents.OldDirectory` | internal/coresync/sync.go:794-806 | An opened directory that was not created led from the root before |
| `Manifests.ValidateManifest` | internal/coresync/sync.go:100-135 | Accepts exactly the manifests with the supported schema and license, a repository, safe paths, and no source or destination twice |
| `Manifests.ValidateProvenance` | internal/coresync/sync.go:549-588 | The same for provenance records, with 64-digit digests and a full commit |
| `Manifests.LoadProvenance` | internal/coresync/sync.go:590-613 | Absence or the decoded valid record whose paths do not collide; without a failed call an error means there is no such record |
| `Manifests.Prepare` | internal/coresync/sync.go:190-204 | All sources read, sorted by destination: the one listing of the prepared entries |
| `Manifests.ReadSources` | internal/coresync/sync.go:190-201 | The content of every source in manifest order; without a failed call an error means one cannot be read |
| `Manifests.ProvenanceIgnoresOrder` | internal/coresync/sync.go:202-223 | The provenance of a permuted manifest is the same |
| `Manifests.DesiredValid` | internal/coresync/sync.go:206-223 | The provenance that a valid sync writes is itself valid and does not collide with its own path |
| `Manifests.AttestsExactly` | internal/coresync/sync.go:206-223 | Exactly one provenance names this commit, repository and license and has one record with the digest of its source for every entry and no others, ordered by destination: the one that is written |
| `Manifests.ListingEntries` | internal/coresync/sync.go:202-204 | The sorted entries are the manifest entries, each once |
| `Sync.Begin` | internal/coresync/sync.go:142-204 | Proceeds exactly when the inputs are valid, the existing provenance belongs to the repository and names no dropped destination, and all sources can be read, unless a call fails |
| `Sync.OpenRoot` | internal/coresync/sync.go:372-400 | Opening a root fails only with a failed call |
| `Sync.Inspect` | internal/coresync/sync.go:225-250 | In check mode accepts exactly if every destination is managed and has the digest of its source; otherwise exactly if managed ones have their recorded digest and unmanaged ones are missing |
| `Sync.ManagedFiles` | internal/coresync/sync.go:176-179 | The lookup table of the existing provenance |
| `Sync.Check` | internal/coresync/sync.go:142-260 | Without a failed call, accepts exactly the trees that show every source under its destination and a provenance that names this commit, repository and license and has exactly one record for every entry, with the digest of its source, ordered by destination |
| `Sync.ProvenanceReads` | internal/coresync/sync.go:206-223 | An up-to-date tree tells a reader the commit, the repository, the license and the digest of every source |
| `Sync.OneCommit` | internal/coresync/sync.go:252-258 | No tree is up to date for two commits, repositories or licenses, whatever the manifests and sources |
| `Sync.Verify` | internal/coresync/sync.go:284-313 | Without a failed call, accepts exactly if a valid provenance exists and every recorded destination has its digest; whoever decodes the provenance of an accepted tree finds every record true |
| `Sync.VerifiedMeans` | internal/coresync/sync.go:284-313 | The trees that it accepts, in terms of what decodes at the path and what lies at the recorded destinations |
| `Sync.UpToDateVerifies` | internal/coresync/sync.go:284-313 | What check mode accepts, Verify accepts |
| `SyncRun.Run` | internal/coresync/sync.go:142-279 | A nil result copies every source to its destination with mode 0644, and whoever decodes the provenance reads this commit, repository and license and exactly one record with the digest of its source for every entry; check mode and Verify accept the tree. A run that writes anything found no provenance and no destination, or the valid provenance of the same repository with every recorded file still listed and unchanged and every other destination free. Whatever happens, in every state on the way each file that existed keeps its content and each name its entry unless the existing provenance lists it or is it; every file that a managed name led to stays linked until all sources are delivered, and to the end if they are not; and unless a rollback fails, the provenance path shows something else only when every destination shows its new content, save for a new provenance file whose name was drawn for an artifact. Without a rollback error every name leads where it did, and after a clean rollback there are no others save a staged file left behind. With no failed call and no name in use, the run succeeds exactly if inputs and destinations are as required and no new file has the name of an artifact that exists at its turn |
| `SyncRun.RunnableMeans` | internal/coresync/sync.go:142-250 | The trees that a run accepts, in terms of what decodes at the provenance path and what lies at the destinations |
| `SyncRun.Deliver` | internal/coresync/sync.go:708-792 | Opening the parents and publishing, by path, with the same promises |
| `SyncRun.TransactionTrace` | internal/coresync/sync.go:708-792 | What the transaction keeps in each state, in terms of the tree before the run |
| `SyncRun.RunInTurn` | internal/coresync/sync.go:262-278 | No state of a run shows new provenance before every destination shows its new content, unless its name was drawn |
| `SyncRun.StateInTurn` | internal/coresync/sync.go:262-278 | The same for one state, by path |
| `SyncRun.ParentInState` | internal/coresync/sync.go:837-845 | In every state the parent of a target leads to its opened directory, or is gone again and was new |
| `SyncRun.StatePreserved` | internal/coresync/sync.go:232-234 | No state changes a file that sync does not manage |
| `SyncRun.StateKeepsOriginals` | internal/coresync/sync.go:988-1033 | A state that keeps the originals linked keeps every file linked that a name led to before the run |
| `SyncRun.NamesAfterRollback` | internal/coresync/sync.go:1114-1123 | After a rollback every earlier name leads where it did; after a clean one there are no others save the file left behind |
| `SyncRun.BlockedOnPaths` | internal/coresync/sync.go:955-957 | Whether a new file has an artifact's name can be decided on paths alone, before any directory is opened |
| `SyncRun.TargetsInOrder` | internal/coresync/sync.go:262-278 | The published files are the sorted destinations with the provenance last |
| `SyncRun.UnluckyExactly` | internal/coresync/sync.go:955-957 | The condition on manifest, existing provenance and drawn suffixes is that condition |
| `SyncRun.TargetNotCreated` | internal/coresync/sync.go:754-792 | Because no path is an ancestor of another, creating parents never creates a target |
| `SyncRun.PlansAreValid` | internal/coresync/sync.go:754-792 | The targets are distinct names that match their inspection after the parents were created |
| `SyncRun.TargetHolds` | internal/coresync/sync.go:748-751 | While every target is new, the path of each leads to its new content |
| `Policy.DelegationIsContainment` | policy.go:7-71 | For valid grants, delegation without an exact scope is allowed exactly if every request the target grant allows, under every membership fact, the actor's grant allows as well |
| `Policy.DelegationSound` | policy.go:27-37 | One direction: delegated authority allows nothing more |
| `Policy.DelegationWitness` | policy.go:27-71 | The other: for every uncovered grant, a valid request and facts that only the target grant allows |
| `Policy.UncoveredRole` | policy.go:54-71 | For uncovered workspace roles, a role that only the target admits |
| `Policy.CoverageTransitive` | policy.go:27-71 | Coverage chains, so delegated authority can be delegated again without growing |
| `Policy.MatchWorkspaceRole` | policy.go:39-52 | The loop finds exactly whether a role matches after trimming and folding |
| `Policy.CheckWorkspaceRoleCoverage` | policy.go:54-71 | The loops decide exactly whether every target role is among the actor's |
| `Text.SegmentsMatchExactly` | policy.go:39-52 | The tolerant comparison never confuses two valid role names |
| `Authorizer.Authorizer.Check` | authorizer.go:47-110 | The nested loops return the declarative decision, with at most one membership lookup |
| `Authorizer.Authorizer.CheckScope` | authorizer.go:81-104 | One scope: the first deciding row or the merged denial |
| `Authorizer.Authorizer.Evaluate` | authorizer.go:258-289 | One row: allowed, a reason, or a failed lookup; the lookup is paid once |
| `Authorizer.MembershipSnapshot.Load` | authorizer.go:241-256 | The membership is looked up on the first use only and cached |
| `Authorizer.AllowedIff` | authorizer.go:47-110 | Allowed exactly if request, catalog and every loaded row are valid, the facts needed were available, and some row allows |
| `Authorizer.EveryAnswer` | authorizer.go:47-110 | Every answer to a valid request and its reason, in terms of grants, membership and owner: allowed, malformed rows, unanswered directory, wrong owner, wrong role, no membership, nothing granted |
| `Authorizer.EarlyAnswers` | authorizer.go:47-80 | What is refused before any grant is looked at |
| `Authorizer.AllowedScope` | authorizer.go:81-104 | An allow names the first scope of tenant, workspace and own that has a grant which opens the request |
| `Authorizer.OpensMeans` | policy.go:7-25 | What a grant of each scope needs of a request |
| `Authorizer.ScopePrecedence` | authorizer.go:81-104 | The reported scope is the first of tenant, workspace, own with an allowing row |
| `Authorizer.OrderIrrelevant` | authorizer.go:47-110 | Permuting or repeating rows does not change the decision |
| `Authorizer.MoreGrants` | authorizer.go:81-104 | One more valid row keeps an allowed request allowed exactly unless the membership reader fails and the request now needs it |
| `Authorizer.MoreGrantsCanFail` | authorizer.go:81-104 | A request for which that happens: adding a grant can take an allow away when the reader fails |
| `Authorizer.DecideByScopes` | authorizer.go:81-110 | Trying the scopes in order yields the declarative decision |
| `GrantGraph.HasGrantPath` | memory/memory.go:278-298 | The stack search terminates and decides reachability exactly |
| `GrantGraph.HasGrantPathQuery` | postgres/tx.go:129-149 | The recursive query decides reachability by at least one edge exactly |
| `GrantGraph.AdaptersAgree` | postgres/tx.go:129-149 | Both answers agree exactly unless the two subjects are the same and lie on no cycle |
| `GrantGraph.NewEdgeKeepsAcyclic` | manager.go:621-629 | Up to self-loops, a new edge keeps the graph acyclic exactly if it is a self-loop or its grantee does not reach its grantor |
| `GrantGraph.AcyclicSubset` | internal/coreapp/tenant_admin.go:271-281 | Removing edges keeps the graph acyclic |
| `GrantGraph.ClosedContains` | memory/memory.go:278-298 | What is closed under edges contains everything reachable |
| `TenantInvariants.MutateKeeps` | manager.go:186-751 | Every operation keeps rows valid, edges equal to the delegated bindings, the graph acyclic and the snapshots exact, and changes no older snapshot |
| `TenantInvariants.CreateRoleKeeps` | manager.go:186-323 | Creating a role keeps them |
| `TenantInvariants.UpdateRoleKeeps` | manager.go:325-393 | Updating a role keeps them |
| `TenantInvariants.DeleteRoleKeeps` | manager.go:395-466 | Tombstoning an empty role keeps them |
| `TenantInvariants.GrantKeeps` | manager.go:468-524 | Granting keeps them |
| `TenantInvariants.RevokeKeeps` | manager.go:526-588 | Revoking keeps them |
| `TenantInvariants.AssignKeeps` | manager.go:590-673 | Assigning, self-assignment included, keeps them |
| `TenantInvariants.UnassignKeeps` | manager.go:675-751 | Unassigning keeps them |
| `TenantInvariants.WithRoleVersions` | manager.go:766-786 | Storing the next version of one role keeps every role's snapshots numbered 1 to its version with the last one live |
| `TenantInvariants.GrantOfInputValid` | manager.go:804-829 | A normalized input grant is a valid grant |
| `Effects.CreateRoleEffect` | manager.go:186-323 | An accepted creation: one live role more at version 1 with trimmed name and description, its snapshot, exactly the listed tenant grants, one audit event; nobody holds anything else than before |
| `Effects.CreateRoleAnswer` | manager.go:186-323 | Which creations are accepted and which are refused with which error |
| `Effects.UpdateRoleEffect` | manager.go:325-393 | An accepted update: exactly this role reads the trimmed name and description at the next version, with its snapshot; grants, bindings, edges and holdings stay |
| `Effects.UpdateRoleAnswer` | manager.go:325-393 | Which updates are accepted and which are refused with which error |
| `Effects.DeleteRoleEffect` | manager.go:395-466 | An accepted deletion: exactly this role, without grants and subjects, is deleted at the next version; nobody loses anything |
| `Effects.DeleteRoleAnswer` | manager.go:395-466 | Which deletions are accepted and which are refused with which error |
| `Effects.GrantEffect` | manager.go:468-524 | An accepted grant: the result says whether it is new, the grants are those before and this one, every subject bound to the role holds it, and no other holding changes |
| `Effects.GrantAnswer` | manager.go:468-524 | Which grants are accepted and which are refused with which error |
| `Effects.RevokeEffect` | manager.go:526-588 | An accepted revocation: the result says whether the grant was there, the grants are those before without it, nobody holds it afterwards, and no other holding, role, binding or edge changes |
| `Effects.RevokeAnswer` | manager.go:526-588 | Which revocations are accepted and which are refused with which error; the last administrator is refused exactly if nobody eligible keeps every control by other grants |
| `Effects.AssignEffect` | manager.go:590-673 | An accepted assignment: the result says whether the binding is new, the subject gains exactly the grants of the role, and a new binding has its edge |
| `Effects.AssignAnswer` | manager.go:590-673 | Which assignments are accepted and which are refused with which error, in the order of the checks |
| `Effects.UnassignEffect` | manager.go:675-751 | An accepted unassignment: the result says whether the binding was there, the subject loses exactly the grants of the role, and the edge goes with the binding |
| `Effects.UnassignAnswer` | manager.go:675-751 | Which unassignments are accepted and which are refused with which error, in the order of the checks |
| `Effects.InputDescribed` | manager.go:804-852 | The grant of a request has its role, permission and scope and its trimmed role names, each once, in order |
| `Effects.BootstrapEffect` | bootstrap.go:48-193 | An accepted bootstrap: one new role with exactly the grants that the last entries describe, the owner bound to it, one audit event by the host |
| `Effects.BootstrapAnswer` | bootstrap.go:48-193 | Which bootstraps are accepted: valid ones of a tenant that was not bootstrapped and has no such role |
| `Effects.ControlMeans` | manager.go:898-914 | Among valid rows a control is exactly a held tenant-scope grant of its permission |
| `Effects.RoleCoverageMeans` | manager.go:854-883 | A role is covered exactly if every row is of a known permission and covered by a held grant |
| `Effects.GuardMeans` | manager.go:753-764 | After losing some holdings the check passes exactly if an eligible subject keeps every guarded permission by others |
| `Delegation.BootstrappedRun` | manager.go:186-751 | After any run of operations on a bootstrapped tenant: all of these invariants, an administrator, and every grant covered by the grants that the owner role's version 1 still shows |
| `Delegation.AuthorityBounded` | manager.go:277-285 | No subject is ever allowed a request that the owner's first grants would not allow under the same facts |
| `Delegation.ChangesAreCovered` | manager.go:468-751 | Whatever grant anybody gains or loses by one operation, the actor's own grants cover it at that moment |
| `Delegation.NoEscalation` | manager.go:852-914 | In a tenant closed under a root set, whatever is allowed some root grant allows |
| `Delegation.MutateCloses` | manager.go:885-914 | Every operation keeps all grants covered by the root set |
| `Delegation.NewGrantCovered` | manager.go:468-522 | A grant that an operation adds was covered by the actor's grants |
| `Delegation.MutateKeepsAdministrator` | manager.go:753-764 | No operation leaves the tenant without an administrator, although deleting a role runs no check |
| `Delegation.TombstoneIsFinal` | manager.go:420-451 | A tombstoned role keeps its tombstone through every run, without grants, bindings or edges, and its identifier stays taken |
| `Delegation.SnapshotShowsGrants` | manager.go:766-802 | The last snapshot lists exactly the role's grants, each once, in order |
| `Delegation.RunKeeps` | manager.go:186-751 | The invariants over runs, by induction |
| `Delegation.NothingBeforeBootstrap` | bootstrap.go:48-193 | Before bootstrap every operation fails |
| `Delegation.BootstrapAdministrator` | bootstrap.go:48-193 | Bootstrap leaves the owner holding all three controls |
| `Delegation.BootstrapStructure` | bootstrap.go:79-193 | Bootstrap establishes the invariants |
| `Delegation.LastEntrySurvives` | bootstrap.go:79-105 | De-duplication by permission and scope keeps the last entry of each |
| `AdminCoverage.Coverage.Add` | internal/adminpolicy/coverage.go:10-26 | Adds exactly the tenant-scope permission of a valid row |
| `AdminCoverage.Coverage.Complete` | internal/adminpolicy/coverage.go:28-42 | Decides exactly whether one subject has all permissions |
| `AdminCoverage.CompleteIs` | internal/adminpolicy/coverage.go:10-42 | Over all eligible bindings this decides whether an administrator exists |
| `MemoryStore.KeyInjective` | memory/memory.go:399-422 | The comma-joined key tells normalized grants of a role apart, so grants act as a mathematical set |
| `MemoryStore.TenantState.Clone` | memory/memory.go:96-133 | The clone holds the same rows, and no map, slice or object reachable from it is one of the original |
| `MemoryStore.TenantState.CloneNested` | memory/memory.go:104-124 | Each of the three nested tables is copied down to its slices, and the copies share nothing with one another |
| `MemoryStore.PermIndex.Clone` | memory/memory.go:104-109 | The permission rows of every role, with the role lists of their grants |
| `MemoryStore.VersionsIndex.Clone` | memory/memory.go:119-124 | The snapshots of every role, with their grants and those grants' role lists |
| `MemoryStore.BindingsIndex.Clone` | memory/memory.go:110-115 | The bindings of every subject |
| `MemoryStore.PermIndex.Put` | memory/memory.go:399-413 | Writes one row in place in the inner map of its role; the table owns nothing but what it had and what is new |
| `MemoryStore.StoreSnapshot` | memory/memory.go:459-465 | A stored snapshot copies the grants and their role lists |
| `MemoryStore.TenantState.CheckAdministrator` | memory/memory.go:300-319 | The nested loops validate every control row and decide exactly whether an administrator exists |
| `MemoryStore.TenantState.ListEffectiveGrants` | memory/memory.go:208-231 | Exactly the grants of the permission on the subject's live roles |
| `MemoryStore.TenantState.ListRolePermissionGrants` | memory/memory.go:241-256 | The role's grants in their one order |
| `MemoryStore.TenantState.InsertRolePermissionGrant` | memory/memory.go:399-413 | Adds the grant to the set unless it is there; refuses unknown and deleted roles |
| `MemoryStore.TenantState.DeleteRolePermissionGrant` | memory/memory.go:415-422 | Removes the grant from the set |
| `MemoryStore.TenantState.InsertRole` | memory/memory.go:362-370 | Stores a role once per identifier |
| `MemoryStore.TenantState.UpdateRole` | memory/memory.go:372-383 | Stores the fields under the next version if the expected version is current |
| `MemoryStore.TenantState.TombstoneRole` | memory/memory.go:385-397 | Marks the role deleted under the next version if the expected version is current |
| `MemoryStore.TenantState.InsertSubjectRoleGrant` | memory/memory.go:424-436 | Adds a binding unless the pair has one |
| `MemoryStore.TenantState.DeleteSubjectRoleGrant` | memory/memory.go:438-445 | Removes and returns the binding |
| `MemoryStore.TenantState.InsertRoleVersion` | memory/memory.go:459-465 | Stores a snapshot under its role and number |
| `MemoryStore.TenantState.DeleteEdgesTo` | internal/coreapp/tenant_admin.go:273-275 | Removes exactly the edges to the member |
| `MemoryStore.TenantState.DeleteBindingsOf` | internal/coreapp/tenant_admin.go:276-278 | Removes exactly the bindings of the member |
| `Manager.RequireGrant` | manager.go:898-914 | Validates every row first, then decides by delegation |
| `Manager.RequireRoleCoverage` | manager.go:854-883 | Validates every row of the role before any coverage is checked; the smallest uncovered permission decides the error |
| `Manager.FirstFailure` | manager.go:854-883 | In permission order the first uncovered grant decides the error, whatever the map order was |
| `Manager.NormalizeRoles` | manager.go:831-852 | Trimmed, valid, distinct and sorted roles |
| `Manager.ValidateGrantInput` | manager.go:804-829 | The normalized grant of a valid input |
| `Manager.StoreNextVersion` | manager.go:766-786 | Role and snapshot of the next version |
| `Manager.CreateRole` | manager.go:186-323 | The transaction body has exactly the specified outcome and effect |
| `Manager.UpdateRole` | manager.go:325-393 | The same for updating |
| `Manager.DeleteRole` | manager.go:395-466 | The same for tombstoning |
| `Manager.GrantPermission` | manager.go:468-524 | The same for granting |
| `Manager.RevokePermission` | manager.go:526-588 | The same for revoking, with the administrator check after the delete |
| `Manager.AssignRole` | manager.go:590-673 | The same for assigning, with the cycle check |
| `Manager.UnassignRole` | manager.go:675-751 | The same for unassigning |
| `Manager.InsertGrants` | manager.go:289-299 | The grants of a new role, inserted one by one, are the specified set |
| `Store.Store.MutateTenant` | memory/memory.go:175-201 | Success installs exactly the callback's effect, in a state that shares no object with any earlier one; any error or cancellation leaves everything observable unchanged; other tenants are untouched; no object of a committed state is ever written |
| `Store.TransactedMeans` | memory/memory.go:175-201 | A transaction succeeds exactly if the tenant is not purged, nothing was cancelled and the callback succeeds, and then with its outcome |
| `Store.Store.Commit` | memory/memory.go:196-201 | The swap replaces the state of one tenant and no other |
| `Store.Store.Enter` | memory/memory.go:70-77 | A tenant that was never heard of gets an empty state, which is what it showed before |
| `Store.Store.Execute` | manager.go:186-751 | Every request is validated before, and then one such transaction of its operation |
| `Store.Store.Bootstrap` | bootstrap.go:48-193 | Malformed input is refused, then whatever the host's authorizer refuses, then invalid grants; an accepted request is one such transaction of the bootstrap step; any error changes nothing |
| `Store.Prepare` | manager.go:132-148 | Opens a transaction exactly for valid commands, with normalized input |
| `Store.PrepareBootstrap` | bootstrap.go:48-128 | Accepts exactly valid inputs; the grants are the de-duplicated normalized ones |
| `Store.LastEntriesAreGrants` | bootstrap.go:79-105 | The filled map holds exactly the last entry of each permission and scope |
| `CoreTenancy.ActivatedRun` | internal/coreapp/policy_store.go:96-151 | After activation, through any run of guarded operations, suspensions, resumptions, removals and joins: some active member holds all four administrator permissions, and the kernel's invariants hold |
| `CoreTenancy.RunCoreKeeps` | internal/coreapp/tenant_admin.go:246-287 | The Core invariants over runs, by induction |
| `CoreTenancy.MutateCoreKeeps` | internal/coreapp/policy_store.go:39-109 | A guarded operation keeps them |
| `CoreTenancy.ManageMemberKeeps` | internal/coreapp/tenant_admin.go:246-287 | Suspending, resuming and removing a member keeps them |
| `CoreTenancy.RemovalUnbinds` | internal/coreapp/tenant_admin.go:271-281 | Deleting a member's edges and bindings leaves edges and delegated bindings equal |
| `CoreTenancy.RemovalKeepsAdministrator` | internal/coreapp/tenant_admin.go:258-266 | The check that excludes the member is enough for the removal |
| `CoreTenancy.PostCheckRedundant` | internal/coreapp/policy_store.go:96-109 | The wrapper's final check never fires, because each operation already keeps an active administrator |
| `CoreStore.CoreStore.MutateTenant` | internal/coreapp/policy_store.go:39-109 | Guard, callback and final check in one transaction: the specified result, or no change |
| `CoreStore.CoreStore.CheckGuard` | internal/coreapp/policy_store.go:46-95 | The guard of the wrapper, check by check |
| `CoreStore.CoreStore.ManageMember` | internal/coreapp/tenant_admin.go:246-287 | The specified change of membership, bindings and edges, or no change |
| `CoreEffects.StatusEffect` | internal/coreapp/tenant_admin.go:246-287 | Suspending suspends and resuming resumes exactly this member; the policy tables gain one audit event and nothing else |
| `CoreEffects.RemovalEffect` | internal/coreapp/tenant_admin.go:246-287 | A removed member has no membership, binding or edge, and every other membership, binding, edge and holding stays |
| `CoreEffects.ManageMemberAnswer` | internal/coreapp/tenant_admin.go:246-287 | Which changes are accepted and which are refused with which error; suspending and removing are refused exactly if no other active member holds all four permissions, resuming never is for that |
| `CoreEffects.JoinEffect` | internal/coreapp/service.go:650-722 | Joining makes exactly this member active, and is refused exactly for suspended members who are not provisioned |
| `CoreEffects.GuardRefuses` | internal/coreapp/policy_store.go:39-95 | What the guard of the wrapper refuses, in the order of its checks |
| `CoreEffects.GuardedAnswer` | internal/coreapp/policy_store.go:39-109 | A guarded command succeeds exactly if the guard passes and the kernel accepts it with the active members as eligible administrators, and then has exactly the kernel's effect |
| `CoreEffects.ExcludingGuardMeans` | internal/coreapp/tenant_admin.go:258-266 | The administrator check that excludes a member passes exactly if another active member holds all four permissions |
| `CredentialRuns.LiveSessionsMatchPassword` | internal/coreapp/service.go:278-334 | After every interleaving of two-step logins with all other credential transactions, each unrevoked access or refresh row descends from a login whose password matched the hash its account has now |
| `CredentialRuns.FamilyIsPath` | internal/coreapp/service.go:339-451 | The refresh tokens of a family form one path of rotation links in order of issue, or are all dead after a credential change; at most one of them is unrevoked |
| `CredentialRuns.RedeemedAtMostOnce` | internal/coreapp/service.go:414-451 | Over a whole run no refresh token is redeemed twice |
| `CredentialRuns.ReplayRevokesAll` | internal/coreapp/service.go:402-413 | Presenting a rotated token of an active account leaves no live row of the account |
| `CredentialRuns.CredentialChangeEndsSessions` | internal/coreapp/accounts.go:92-107 | A successful credential change leaves every row of the account revoked and unlinked, the new hash stored and every recovery closed |
| `CredentialRuns.InertForever` | internal/coreapp/accounts.go:92-107 | A token from before a credential change fails and changes nothing at every later time, so it cannot revoke newer sessions |
| `CredentialRuns.DeadForever` | internal/coreapp/accounts.go:92-107 | A dead family stays dead through every run |
| `CredentialRuns.StepKeeps` | internal/coreapp/service.go:220-554 | Every credential transaction keeps lineage and rotation paths |
| `CredentialRuns.RunKeeps` | internal/coreapp/service.go:220-554 | So does every run |
| `CredentialRuns.RunKeepsOneRecovery` | internal/coreapp/member_recovery.go:72-80 | An account never has two recoveries that could be completed |
| `CredentialRuns.RecoveryCompletesOnce` | internal/coreapp/member_recovery.go:132-169 | Over a whole run a recovery sets a password at most once |
| `CredentialRuns.DeadRefreshInert` | internal/coreapp/service.go:402-416 | A revoked token without a link is refused without any effect |
| `CredentialRuns.FifthFailureLocks` | internal/coreapp/accounts.go:109-115 | Uninterrupted failures: the count runs modulo five, and every fifth locks the account from that moment on |
| `CredentialRuns.LockedAcceptsNothing` | internal/coreapp/service.go:299-309 | While an account is locked, no step that needs its password succeeds or changes anything, not even issuing for a password verified before the lock |
| `CredentialSafety.IssueKeeps` | internal/coreapp/service.go:278-334 | Issuing under the row lock against the verified hash opens a family of a verified login |
| `CredentialSafety.RotationKeeps` | internal/coreapp/service.go:427-451 | Rotation extends the path of its family at the end |
| `CredentialSafety.LiveIsNewest` | internal/coreapp/service.go:402-416 | A redeemable token is the newest of its family |
| `CredentialSafety.OnlyRevokesKeeps` | internal/coreapp/accounts.go:92-107 | Revoking rows and ending lineages keeps lineage and paths |
| `CredentialSafety.OneLive` | internal/coreapp/service.go:339-451 | Two unrevoked refresh rows are of different families |
| `CredentialStore.Database.ReadLogin` | internal/coreapp/service.go:220-254 | The first half of Login |
| `CredentialStore.Database.FailPassword` | internal/coreapp/accounts.go:109-115 | The fifth failure locks the account and resets the count |
| `CredentialStore.Database.RecordFailure` | internal/coreapp/service.go:254-274 | The failure counts against the row as it is then |
| `CredentialStore.Database.IssueSession` | internal/coreapp/service.go:278-334 | The second half of Login, under the row lock |
| `CredentialStore.Database.Refresh` | internal/coreapp/service.go:339-451 | Reuse, revocation, expiry and rotation, statement by statement |
| `CredentialStore.Database.LogoutSessions` | internal/coreapp/service.go:517-554 | The second statement finds the same families although the first already changed a table |
| `CredentialStore.Database.RevokeCredentialSessions` | internal/coreapp/accounts.go:92-107 | The filtered updates revoke every row, clear every link and close every recovery of the account |
| `CredentialStore.Database.ChangePassword` | internal/coreapp/accounts.go:53-90 | Lock, verification, failure count, replacement |
| `CredentialStore.Database.CreatePasswordRecovery` | internal/coreapp/member_recovery.go:29-93 | Refuses actors without the permission, confirms the administrator and replaces the target's open recovery |
| `CredentialStore.Database.RecoveryTarget` | internal/coreapp/member_recovery.go:99-112 | Finds exactly open recoveries |
| `CredentialStore.Database.CompletePasswordRecovery` | internal/coreapp/member_recovery.go:132-169 | Consumes the recovery under the account lock and replaces the password |
| `CredentialStore.Database.RecoverAdministrator` | internal/coreapp/recovery.go:17-56 | Replaces an active administrator's password |
| `CredentialStore.Database.ProvisionMember` | internal/coreapp/service.go:650-722 | Refuses actors without the permission; creates the account, or resets and reactivates a non-administrator |
| `CredentialStore.Database.RevokeSession` | internal/coreapp/accounts.go:152-177 | Revokes one family, or reports that there is none |
| `CredentialStore.Database.RevokeOtherSessions` | internal/coreapp/accounts.go:182-209 | Revokes every family but the caller's own |
| `CredentialStore.OthersAreOutside` | internal/coreapp/accounts.go:203-207 | The rows of the other families are the account's rows outside the kept one |
| `CredentialEffects.ReadLoginEffect` | internal/coreapp/service.go:220-254 | The password is compared exactly for an active account without a running lock |
| `CredentialEffects.RecordFailureEffect` | internal/coreapp/service.go:254-274 | One failure more, and the fifth locks for fifteen minutes |
| `CredentialEffects.IssueEffect` | internal/coreapp/service.go:278-334 | A session is issued exactly to an active, unlocked account whose password is still the verified one: two unrevoked tokens of the new family that run from now, with the access token authenticated |
| `CredentialEffects.RefreshEffect` | internal/coreapp/service.go:339-451 | A refresh token is redeemed exactly while its account is active and it is unrevoked, unrotated and unexpired: two new unrevoked tokens of its family that run from now, and itself revoked and linked; otherwise no row is added |
| `CredentialEffects.RefusalEffect` | internal/coreapp/service.go:398-425 | A rotated token revokes every session of its account, an expired one itself, any other refused one nothing |
| `CredentialEffects.LogoutEffect` | internal/coreapp/service.go:517-554 | Exactly the families of the presented tokens are revoked |
| `CredentialEffects.RevokeSessionEffect` | internal/coreapp/accounts.go:152-177 | Exactly this family is revoked, or there is none |
| `CredentialEffects.RevokeOthersEffect` | internal/coreapp/accounts.go:182-209 | With an authenticated token of the account, exactly its other families are revoked |
| `CredentialEffects.ChangePasswordEffect` | internal/coreapp/accounts.go:53-90 | Which answer a change gets; an accepted one stores the hash, lifts the lock, ends every session and closes every recovery of the account, a wrong password counts as a failure, and nothing else changes |
| `CredentialEffects.RecoverAdministratorEffect` | internal/coreapp/recovery.go:17-56 | The same for an active administrator |
| `CredentialEffects.ProvisionEffect` | internal/coreapp/service.go:650-722 | A new active account, or the same for a non-administrator who is active afterwards |
| `CredentialEffects.CreateRecoveryEffect` | internal/coreapp/member_recovery.go:29-93 | Which answer a request gets; an accepted one leaves the target exactly one open recovery |
| `CredentialEffects.CompleteRecoveryEffect` | internal/coreapp/member_recovery.go:132-169 | A recovery is completed exactly while it is open and for an eligible active member who is no administrator; it is consumed and the password replaced |
| `Migrations.Migrate` | postgres/migrate.go:143-250 | Every committed state follows from the one before by one allowed statement, so also when the run stops at any statement. Success leaves exactly the shipped migrations recorded clean with name and checksum, and on a database that earlier runs built the schema holds every shipped migration once, in order; without a failed statement it succeeds exactly on compatible databases; a dirty row stops it without a change |
| `Migrations.MigrateOne` | postgres/migrate.go:195-245 | Compares and baselines a recorded migration, or marks, applies and finishes a new one |
| `Migrations.Inspect` | postgres/migrate.go:160-194 | Refuses exactly dirty databases and those of a newer binary |
| `Migrations.EveryStateConsistent` | postgres/migrate.go:143-250 | Over any sequence of runs of binaries whose lists extend one another, stopped anywhere: recorded versions are 1 to k, only k can be dirty, and the schema holds exactly the clean migrations once each, in order |
| `Migrations.AllowedKeepsConsistent` | postgres/migrate.go:195-245 | One statement keeps this |
| `Migrations.EmptyConsistent` | postgres/migrate.go:160-170 | A new database is where such histories start |
| `Migrations.CompatibleExactly` | postgres/migrate.go:173-194 | For such databases only a dirty row or a newer version is incompatible |
| `Migrations.SuccessVerifies` | postgres/migrate.go:47-66 | After a successful run the service's state check accepts |
| `Migrations.AppliedOnSuccess` | postgres/migrate.go:195-245 | After a successful run the schema holds every shipped migration once, in order |
| `Migrations.VerifyMigrationState` | postgres/migrate.go:47-66 | Accepts exactly a version table that holds the shipped migrations, clean and with their checksums |
| `Migrations.OrderMigrations` | postgres/migrate.go:119-138 | Accepts exactly files numbered without a gap and with both directions, and returns them in order |
| `Paging.FetchPage` | internal/coreapp/directories.go:123-130 | Fetching one row more than the limit yields the page and, exactly if rows follow, the key of its last row |
| `Paging.Follow` | internal/coreapp/directories.go:123-130 | Following next cursors from any handed-out cursor stops and shows exactly the remaining rows |
| `Paging.NextContinues` | internal/coreapp/directories.go:123-130 | The next page continues where the page ended |
| `Paging.PagesShowEverything` | internal/coreapp/directories.go:94-213 | Concatenated pages are the full list in order, each row once, whatever the limits |
| `Directories.Directory` | internal/coreapp/directories.go:42-213 | Refuses exactly invalid tenants, roles, assignments and filters, then exactly role member directories of roles that are not stored or deleted; otherwise a page of at most the limit, every row with the requested status and the search in its text, the number of all such rows, and a cursor bound to collection and filter; the assignment defaults to assigned |
| `Directories.SessionShowsEverything` | internal/coreapp/directories.go:94-213 | For members, roles, role members and invitations: a session shows exactly the rows of the table with the requested status whose lowered text contains the lowered search, by identifier or newest invitation first, each once, with their number on every page, on at most one page more than rows |
| `Directories.MatchingExactly` | internal/coreapp/directories.go:94-213 | Which rows the filter selects |
| `Directories.AnswerRows` | internal/coreapp/directories.go:94-213 | The rows and the total of a page, by quantifiers over the table |
| `Directories.FollowingEnds` | internal/coreapp/directories.go:94-213 | Following cursors ends whatever limits are asked for: at most one page more than rows that are left, and what was shown is a beginning of them |
| `Directories.CursorIsAccepted` | internal/coreapp/directories.go:57-73 | A cursor is accepted together with the filter that produced it |
| `Directories.CursorIsBound` | internal/coreapp/directories.go:57-73 | And with no other tenant, collection, search, status, role or assignment |
| `Directories.EarlierOrders` | internal/coreapp/directories.go:200-205 | The orders by identifier and by age are total, so the keyset comparison loses no row |
| `Audit.AuditLog` | internal/coreapp/audit.go:30-92 | Rejects exactly invalid filters and answers a page of at most the limit, whose rows all have the outcome, operation, time and search that the filter asks for |
| `Audit.SessionShowsEverything` | internal/coreapp/audit.go:70-92 | Following the numbers shows every row once, newest first, on at most one page more than rows |
| `Audit.LogShows` | internal/coreapp/audit.go:30-92 | A session shows exactly the rows with the outcome, operation and time of the filter whose lowered operation, actor, target, reason or request contains the search, the highest number first |
| `Audit.MatchingExactly` | internal/coreapp/audit.go:70-92 | Which rows the filter selects |
| `Audit.FollowingEnds` | internal/coreapp/audit.go:70-92 | Following the numbers of the audit log and of role versions ends in the same way |
| `Audit.RoleVersions` | internal/coreapp/role_audit.go:82-109 | The same paging for role versions, twenty at a time |
| `AuditExport.Export` | internal/coreapp/audit_export.go:62-114 | The complete document of the filtered rows or nothing; without a read error a document exactly when rows and bytes are within bounds |
| `AuditExport.Writer.Write` | internal/coreapp/audit_export.go:29-34 | However a buffered writer splits its output, an error means that the total exceeds the byte bound |
| `AuditExport.Writer.Flush` | internal/coreapp/audit_export.go:93-107 | After a successful flush the sink holds everything written |
| `AuditExport.ExportIsAllPages` | internal/coreapp/audit_export.go:62-107 | The exported rows are those that a session over all pages shows |
| `AuditExport.ExportReads` | internal/coreapp/audit_export.go:36-107 | Reading an export back gives the header and then, the newest first, exactly the rows that were asked for, with every field recovered under the name of its column |
| `AuditExport.ColumnsNamed` | internal/coreapp/audit_export.go:47-60 | Every field stands under the name of its column |
| `AuditExport.Fields` | internal/coreapp/audit_export.go:47-57 | Every field of a record, in the order of the columns, becomes a cell that is marked as text where it could be read as a formula |
| `Passwords.VerifyAcceptsExactly` | internal/security/password.go:40-99 | A hash printed under one valid configuration is accepted under exactly that configuration, and for exactly the passwords that derive the same key |
| `Passwords.Verify` | internal/security/password.go:56-99 | Decides the declarative acceptance |
| `Passwords.Hash` | internal/security/password.go:40-54 | Prints exactly for valid passwords and configurations |
| `Passwords.PrintedText` | internal/security/password.go:40-54 | The stored form, letter by letter |
| `Passwords.ParseParameters` | internal/security/password.go:124-176 | The loop reads exactly three positive numbers named m, t, p within 32 and 8 bits |
| `Passwords.PrintedSplits` | internal/security/password.go:66-69 | Splitting the printed form gives its five fields |
| `Passwords.PrintedFits` | internal/security/password.go:60-62 | The printed form stays under the length cap |
| `Codecs.ParseDecimalUint` | internal/security/password.go:178-192 | Accepts exactly digit strings below the width, with their value |
| `Codecs.DecimalValue` | internal/security/password.go:51-54 | Printing and reading a number are inverse |
| `Codecs.Base64RoundTrip` | internal/security/password.go:51-54 | Unpadded base64 decodes what it encoded |
| `Codecs.KnownEncodings` | internal/security/password.go:51-54 | The vectors of RFC 4648 |
| `Codecs.EncodedFacts` | internal/security/password.go:74-89 | Encoding uses the alphabet and has the length the decoder expects |
| `Codecs.SplitJoin` | internal/security/password.go:66-69 | Splitting undoes joining |
| `TenantExport.ReachableExportIsDetermined` | memory/memory.go:508-535 | After bootstrap and any operations, every order in which the maps are ranged over exports the same bytes |
| `TenantExport.ExportTenant` | memory/memory.go:508-535 | Collects every row once, in any order, and returns the encoded canonical form; refuses exactly purged tenants |
| `TenantExport.ExportIgnoresOrder` | internal/tenantexport/snapshot.go:24-56 | Permuting roles, grants, versions, edges, or the grants inside versions does not change the canonical form |
| `TenantExport.CanonicalExactly` | internal/tenantexport/snapshot.go:24-56 | The canonical form holds every row as often as before, roles by identifier, versions by role and number, edges by their ends, grants by role, permission, scope and role names, and the audit log in its order |
| `TenantExport.Marshal` | internal/tenantexport/snapshot.go:24-43 | Encodes the canonical form; neither its input arrays nor the grant arrays of the versions are written |
| `TenantExport.MarshalVersions` | internal/tenantexport/snapshot.go:30-36 | Sorting a copy of the versions first and replacing their grants by sorted copies afterwards gives the canonical versions; the grant arrays that the copy shares with the original stay as they are |
| `TenantExport.SlicesSortOneWay` | internal/tenantexport/snapshot.go:30-36 | Sorting version records by key sorts what they hold, although they hold arrays |
| `TenantExport.SameElements` | internal/tenantexport/snapshot.go:30-36 | A permutation of version records is a permutation of the versions they hold |
| `TenantExport.GrantsSortOneWay` | internal/tenantexport/snapshot.go:45-56 | The comparison of grants covers every field, so sorting has one result |
| `TenantExport.MutateAdds` | manager.go:766-786 | An operation stores at most one snapshot, under its own number and with the role's grants |
| `Ordering.OneSortedForm` | internal/tenantexport/snapshot.go:24-56 | When keys tell elements apart, sorting has only one result |
| `Ordering.SortSlice` | internal/tenantexport/snapshot.go:24-29 | The library sort: an ordered permutation, in place |

## Left out

- HTTP handlers, cookies, request decoding, command line, logging, the web interfaces and deployment scripts.
- PostgreSQL itself, row-level security, tenant binding and advisory locks; only the meaning of the statements is used.
- Timestamps in roles, bindings, snapshots and audit events; they are written and never compared.
- Audit of denied requests and the security event sink, purging and maintenance, invitations, profiles and organization names.
- Deleting expired sessions in batches, which would end the history that the family results speak about.
- `Publisher.PublishTransaction`: the hooks that the original's tests install between steps are not modelled.
- `Parents.OpenParents`: a directory made inside the component helper is not yet recorded, so a failure right after it can leave that directory behind, as in the source.
- `SyncRun.Run`: opening the two roots is three calls that may fail; the checks that a root is a real directory and did not change meanwhile are not modelled, since nobody else writes.
- `Paths.ReadPath`: paths are lists of components; the textual clean-path test is stated on the components.
- `MemoryStore.TenantState`: the purge ledger, which only purging writes, is not modelled; strings and times below a row are values.
- `MemoryStore.TenantState.ListRolePermissionGrants`: rows that the source's comparison leaves tied are ordered by their role list.
- `Store.PrepareBootstrap`: the key of permission and scope joined by a colon is modelled as a pair.
- `CoreTenancy.ActivatedRun`: membership rows are a status per member; invitations and account creation enter as joins.
- `CredentialStore.Database.ReadLogin`: the lookup by e-mail address and the dummy verification for unknown addresses are not modelled.
- `CredentialStore.Database.CreatePasswordRecovery`: whether the actor may manage members enters as the parameter `permitted`.
- `CredentialStore.Database.ProvisionMember`: the actor's permission enters as `permitted`; the membership row that is written in the same transaction is the joining step of `CoreTenancy`.
- `Migrations.OrderMigrations`: reading and parsing the embedded file names is not modelled.
- `Directories.Directory`: the base64 and JSON form of a cursor and its size bound are not modelled; cursors are values.
- `AuditExport.Export`: rolling back the read transaction has no effect to model.
- `Passwords.Verify`: a nil hasher and byte strings that are not UTF-8 are not modelled.
- `TenantExport.Marshal`: the JSON encoder is a parameter.
- Version numbers and counters are unbounded; overflow of 64-bit integers is not modelled.
