# Shoot packs: a verified model

`gardener-extension-shoot-pack` installs packs of Kubernetes resources into shoot clusters. This
project models the four parts of it that have state, parsing or agreement between modules, and
proves what they promise. Nothing was executed.

| file | models |
|---|---|
| `Actuator.dfy`, `Plan.dfy`, `Store.dfy` | the reconciler: applying the configured packs, deleting the others, on an API server where any call may fail |
| `Meaning.dfy`, `Promises.dfy` | a second definition of rendering, independent of the first and proved equal, and what attempts promise in its terms |
| `Outcomes.dfy`, `Progress.dfy`, `Runs.dfy` | what one operation, a run of retries, and a run of any operations leave on the API server |
| `Rendering.dfy`, `PatchFiles.dfy` | the kustomize file system, generated patch names, the order in which secrets are iterated, the registry |
| `Sums.dfy`, `Assets.dfy`, `Hex.dfy` | the checksum file, the collection loader, the checksum gate |
| `PackBuild.dfy` | the metadata that pack-build writes, and what the loader makes of it |
| `Config.dfy`, `Admission.dfy`, `DeepCopy.dfy` | the provider configuration: validation, the webhook, deep copies |
| `Shoots.dfy`, `Text.dfy`, `Collections.dfy`, `Results.dfy` | shared data types, Go string and path functions, facts about sequences and maps |

How the model is built:

- **Failures.** `Store.ApiServer` is a class with the ManagedResources in a mutable map. Every call
  may fail; a create or delete that reports failure may still have taken effect. The operations of
  `Actuator.Actuator` return, as ghost results, the writes that took effect. Their contracts say
  that the objects are the old ones with exactly these writes replayed, and `Plan.Reconciles` and
  `Plan.Deletes` say which lists of writes go with which error. A write list is the history of an
  attempt, so a claim about all its prefixes is a claim about every moment of the attempt. The server
  also records which calls failed, and `Plan.Blames` ties the error of an attempt to that record.
- **Iteration order.** Go iterates a secret's data in any order. The loop in
  `Actuator.Actuator.WriteGroup` picks keys arbitrarily, and a rendering is one that some order
  gives (`Plan.RendersTo`). A pack may thus have several renderings. Results about success, retries
  and runs allow for it: they say which renderings an object may hold (`Outcomes.MayHold`), and add
  equality for unique renderings.
- **Libraries** are parameters: SHA-256 (section 6.2 of FIPS 180-4) is any function to 32 bytes,
  and the decoder, YAML, kustomize and the registry's serializer are any partial functions.

Four promises of the program hold only under a condition. Each is proved with its exact condition.

- *A configured pack is installed.* The ManagedResource is named after the pack name only, but a
  pack counts as disabled by name and version. A collection with two versions of a configured pack,
  as pkg/assets/assets.go:113-127 describes it, makes a successful reconciliation apply the pack and
  then remove it (`Outcomes.TwoVersionsVanish`). All configured packs are installed if and only if
  no configured pack has another version in the collection (`Outcomes.ConfiguredPacksArePresentIff`),
  and the same condition is exactly what makes retries monotone
  (`Progress.MonotoneIffSingleVersions`).
- *Every patch is applied.* The generated file names of two secrets can meet, and then the file
  listed for the first patch holds the second one (`PatchFiles.DashExtensionLosesPatch`). Every
  patch file holds its own bytes if and only if keys that get one file name hold the same bytes
  (`PatchFiles.PatchesResolveIff`); it is enough that no used secret is named like another one
  extended by a dash (`PatchFiles.NoDashExtensionNoClash`).
- *The kustomize input does not depend on map iteration.* The resource and patch files never do
  (`PatchFiles.FilesOrderFree`), but the patch list follows the iteration. It is the same for all
  orders if and only if every used secret has at most one key (`PatchFiles.ListOrderFreeIff`,
  `PatchFiles.FileSystemOrderFreeIff`), as in docs/customize-packs.md, and then renderings are
  unique (`Outcomes.SingleKeysGiveUniqueRenderings`).
- *What is built loads.* The description goes through the shell's `echo`, which takes `-n`, `-e` and
  the like for options, and `find` lists regular files only. With a `*.yaml` entry, the loader
  accepts a built pack if and only if the description is neither blank nor such an option and all
  `*.yaml` entries are regular files; without one, if and only if `find`, which ignores letter case
  and looks into sub-directories, found something, and then there is no such pack in the collection
  (`PackBuild.BuiltIsAcceptedIff`, `PackBuild.BuildAndLoad`).

## Model

| member | source | states |
|---|---|---|
| Actuator.Actuator.Reconcile | pkg/actuator/pack/actuator.go:222-295 | the objects afterwards are the old ones with the returned writes replayed; writes, rendered contents and error are one of the combinations of `Plan.Reconciles`; and by `Plan.Blames` no call failed unless the attempt ends with the error of exactly that call. What this means is in the `Promises` rows |
| Actuator.Actuator.ReconcilePack | pkg/actuator/pack/actuator.go:298-373 | one create with a rendering of the pack, or none and an error the pack can really fail with; a failed create may have taken effect |
| Actuator.Actuator.KustomizeFilesystemForPack | pkg/actuator/pack/actuator.go:378-473 | the file system holds the resources, then the patches of each secret in some order, then the kustomization that lists both |
| Actuator.Actuator.WriteGroup | pkg/actuator/pack/actuator.go:420-438 | for an arbitrary iteration of a secret, every key is written once and listed once with the target of its specification |
| Shoots.IndexOfSecretRef | pkg/actuator/pack/actuator.go:482-486 | the first resource of that name that refers to a core v1 Secret, or -1 exactly when there is none |
| Actuator.Actuator.SecretFromResourceRef | pkg/actuator/pack/actuator.go:477-511 | success gives the data of the secret behind an existing reference; the two errors tell a missing reference from a secret that is missing or whose read failed |
| Actuator.Actuator.Register | pkg/actuator/pack/actuator.go:325-355 | the registry ends as `Rendering.Registered`, or the first object that cannot be labelled or marshalled is reported |
| Actuator.Actuator.DisabledPacks | pkg/actuator/pack/actuator.go:279-285 | the removal list is `Plan.Disabled`, characterised by `Outcomes.DisabledNames` |
| Actuator.Actuator.DeleteAll | pkg/actuator/pack/actuator.go:287-292 | removes the listed packs in order and stops at the first call answered by a failure, whose own removal may or may not have happened; it ends with an error only if the server recorded such an answer, so not found is no failure |
| Actuator.Actuator.Delete | pkg/actuator/pack/actuator.go:515-527 | success removes one object for each collection pack; a failure leaves a prefix of these removals and is that of a recorded failed call |
| Actuator.Actuator.ForceDelete | pkg/actuator/pack/actuator.go:532-536 | the same promise as Delete |
| Actuator.Actuator.Restore | pkg/actuator/pack/actuator.go:540-542 | the same promise as Reconcile |
| Actuator.Actuator.Migrate | pkg/actuator/pack/actuator.go:547-549 | the same promise as Reconcile |
| Promises.SuccessPromise | pkg/actuator/pack/actuator.go:222-295 | success on an awake shoot, said without the functions that specify the reconciler: the configuration decodes to well-formed packs; each content is a rendering, as `Meaning.IsRendering` defines it, of the first collection pack of that name and version; the object `extension-shoot-pack-<name>` holds it unless the collection has another version; other collection packs have no object; everything else is unchanged |
| Promises.ErrorIsTrue | pkg/actuator/pack/actuator.go:222-373 | whatever error an attempt ends with, what it says is true of the configuration, the pack, its files, its secrets, the stage of rendering, or the one call that failed (`Promises.AttemptFails`) |
| Promises.PackFailsTruly | pkg/actuator/pack/actuator.go:298-360 | a pack fails only with an error that is true of it: an unknown pack, a reference that the shoot lacks, an unreadable resource, or the stage that the library refuses |
| Promises.HibernatedIsLeftAlone | pkg/actuator/pack/actuator.go:234-237 | a hibernated shoot is left as it is, and only a missing cluster is an error |
| Promises.NoFailedCallNoError | pkg/actuator/pack/actuator.go:222-295 | when no call fails, a valid configuration whose packs have nothing wrong with them reconciles |
| Promises.DeletionPromise | pkg/actuator/pack/actuator.go:515-527 | a deletion ends without an error if and only if no call failed, and then no collection pack has an object; otherwise the error names the object of a collection pack whose delete call failed |
| Meaning.CanRenderIff | pkg/actuator/pack/actuator.go:254-373 | what a pack can render to is exactly what the independent definition `Meaning.IsRendering` says: the first collection pack of the name and version, whole; its resources; every key of every referenced secret once, in configuration order and with its target; the prepared files; the labelled objects; the serialized registry |
| Meaning.KustomizationIs | pkg/actuator/pack/actuator.go:431-461 | the marshalled kustomization: namespace, build metadata, all resources, and for every key the generated file with the target of its specification |
| Meaning.FilesArePrepared | pkg/actuator/pack/actuator.go:391-470 | what the file system has at any path: the kustomization, else the patch of the last specification placed there, else the resource, else nothing |
| Meaning.RegistryIff | pkg/actuator/pack/actuator.go:325-355 | a map is the registry exactly when each object that is no Namespace takes labels and has, under its index, the YAML of an object of the same kind, name and body with the two pack labels over its own; and nothing else |
| Store.ApiServer.CreateForShoot | pkg/actuator/pack/actuator.go:364-372 | creates or replaces one object; success means it took effect, failure leaves both outcomes possible and is recorded |
| Store.ApiServer.DeleteForShoot | pkg/actuator/pack/actuator.go:289-291 | removes one object; a reply of not found means there was none; only a failure is recorded as a failed call |
| Store.LookupReplay | pkg/actuator/pack/actuator.go:257-292 | what a list of writes leaves at a key is what its last write to that key says, and the old content if there is none |
| Plan.KeyInjective | pkg/actuator/pack/actuator.go:288-288 | the object name determines the pack name and the namespace |
| Outcomes.DisabledNames | pkg/actuator/pack/actuator.go:279-285 | a name is on the removal list exactly when some version of it in the collection is not enabled |
| Outcomes.RemovedIff | pkg/actuator/pack/actuator.go:278-292 | a collection name is removed exactly when it is not configured or has another version in the collection |
| Outcomes.FinalStateOfName | pkg/actuator/pack/actuator.go:254-292 | exact final state of every collection name from any start: the rendering if configured and of a single version, nothing otherwise |
| Outcomes.FinalState | pkg/actuator/pack/actuator.go:254-292 | the whole store after a full plan: all collection names as above, every other object untouched |
| Outcomes.FinalIsUnique | pkg/actuator/pack/actuator.go:254-292 | that description determines the final store |
| Outcomes.SuccessIsPlan | pkg/actuator/pack/actuator.go:240-292 | a successful attempt on an awake shoot had a well-formed configuration of known packs and carried out the full plan |
| Outcomes.CanSucceedIff | pkg/actuator/pack/actuator.go:240-294 | an attempt on an awake shoot can succeed exactly when the configuration is valid and each configured pack is known and renders |
| Outcomes.ReconcileFinalState | pkg/actuator/pack/actuator.go:222-295 | the same for any successful attempt on an awake shoot |
| Outcomes.SuccessSettles | pkg/actuator/pack/actuator.go:222-295 | after any success on an awake shoot each collection name holds some rendering of its pack, or nothing if it is not configured or of several versions; nothing else has changed |
| Outcomes.SuccessIsIdempotent | pkg/actuator/pack/actuator.go:222-295 | repeating a successful reconciliation creates and removes no object and touches no other one; contents stay renderings of the same packs, and stay equal if renderings are unique |
| Outcomes.SingleKeysGiveUniqueRenderings | docs/customize-packs.md:54-65 | renderings are unique if every used secret has at most one key, which can be checked before the call |
| Outcomes.ConfiguredPacksArePresentIff | pkg/actuator/pack/actuator.go:254-292 | all configured packs end up with their renderings if and only if none of them has another version in the collection |
| Outcomes.PresentIffConfigured | pkg/actuator/pack/actuator.go:254-292 | with single versions, a collection name has an object exactly when it is configured |
| Outcomes.TwoVersionsVanish | pkg/assets/assets.go:113-127 | for the documented two-version collection, the configured pack has no object after success |
| Outcomes.OrderOfPacksIsIrrelevant | pkg/actuator/pack/actuator.go:257-292 | permuting the configured packs does not change the final store |
| Outcomes.ReconcileOrderIndependent | pkg/actuator/pack/actuator.go:257-292 | two successful attempts that install the same packs, configured in any order, from used secrets with the same data (`Outcomes.SameWork`; shoots and other secrets may differ), leave the same objects with renderings of the same packs, and equal stores if renderings are unique |
| Progress.FailureBeforeDeletion | pkg/actuator/pack/actuator.go:257-276 | if an attempt fails before its deletions, no object is missing at any moment and only a prefix of the configured packs has changed |
| Progress.RetryProgress | pkg/actuator/pack/actuator.go:257-292 | with single versions, and however many renderings a pack has: the set of names not as success leaves them (`Outcomes.MayHold`) never grows between any two moments of an attempt, failed or not, and is empty after success |
| Progress.RetryRun | pkg/actuator/pack/actuator.go:222-295 | the same over any number of retries with the same inputs and single versions; after one success the set stays empty whatever fails later |
| Progress.RetryProgressToGoal | pkg/actuator/pack/actuator.go:257-292 | with single versions and one rendering a pack (`Progress.OnlyRenderings`): attempts move towards these fixed contents alone, and success reaches them |
| Progress.MonotoneIffSingleVersions | pkg/actuator/pack/actuator.go:279-292 | progress is monotone from every start if and only if no configured pack has another version in the collection |
| Runs.EventWritesWithin | pkg/actuator/pack/actuator.go:222-295 | whatever fails, every write of every operation is for an object named after a collection pack |
| Runs.RunKeepsForeignObjects | pkg/actuator/pack/actuator.go:222-549 | over any run with any failures, all other objects, in all namespaces, keep their initial content |
| Runs.RunIsHistoryIndependent | pkg/actuator/pack/actuator.go:222-549 | over any run, the objects under collection names are determined by the last successful operation on their namespace that was not skipped by hibernation |
| Runs.DecidingIff | pkg/actuator/pack/actuator.go:222-549 | the deciding operation is the one after which no operation on the namespace decided or wrote anything |
| Runs.SameDecisionSameObjects | pkg/actuator/pack/actuator.go:222-549 | two runs from any two starts whose last deciding operations are both deletions, or both install the same packs from used secrets with the same data: each collection name is present after both or after neither, holds what that one operation may leave, and holds the same if renderings are unique. So Reconcile, Restore and Migrate are interchangeable, and Delete and ForceDelete are |
| Runs.Perform | pkg/actuator/pack/actuator.go:222-549 | the actuator itself, driven through any list of operations while clusters and secrets change: the objects are those of a run of permitted events, one for each operation; collection names are as the deciding operation determines them, and no other object changes |
| Runs.DeletionRemoves | pkg/actuator/pack/actuator.go:515-527 | a successful deletion leaves no object under a collection name |
| Rendering.PatchPathInjective | pkg/actuator/pack/actuator.go:421-422 | different keys of one secret get different files |
| Rendering.CollisionIff | pkg/actuator/pack/actuator.go:421-421 | when one secret name is another one extended by a dash, exactly which keys get one file name |
| Rendering.NoCollision | pkg/actuator/pack/actuator.go:421-421 | otherwise the generated name determines secret and key |
| Rendering.AllSurviveIff | pkg/actuator/pack/actuator.go:393-470 | every write into the file system survives if and only if no two writes put different data at one path |
| Rendering.RegistryComplete | pkg/actuator/pack/actuator.go:325-355 | the registry has one entry for each object that is no Namespace and no other entry; `Meaning.RegistryIff` says what the entries are |
| Rendering.RelabelledLabels | pkg/actuator/pack/actuator.go:336-341 | the labels are the original ones overridden by exactly the pack name and version |
| Rendering.RegistryKeyInjective | pkg/actuator/pack/actuator.go:351-353 | decimal index keys never coincide |
| Rendering.FirstMissing | pkg/actuator/pack/actuator.go:408-417 | no error exactly when every reference and secret exists; an unknown reference is reported only for a reference that is unknown |
| PatchFiles.FilesOrderFree | pkg/actuator/pack/actuator.go:407-439 | two iteration orders write the same files, the kustomization file excepted |
| PatchFiles.ListOrderFreeIff | pkg/actuator/pack/actuator.go:420-438 | the patch list is the same for all iteration orders if and only if every used secret has at most one key |
| PatchFiles.FileSystemOrderFreeIff | pkg/actuator/pack/actuator.go:391-470 | so is the whole file system with kustomization.yaml, when marshalling never fails and loses nothing |
| PatchFiles.PatchListShape | pkg/actuator/pack/actuator.go:407-439 | the patch list has one entry a key, specifications in configuration order, orders differing only within a specification |
| PatchFiles.PatchesAgreeIff | pkg/actuator/pack/actuator.go:420-438 | no patch overwrites another one if and only if keys with one generated name hold the same bytes |
| PatchFiles.NoDashExtensionNoClash | pkg/actuator/pack/actuator.go:421-421 | there is no such clash when no used secret name is another one extended by a dash |
| PatchFiles.DashExtensionLosesPatch | pkg/actuator/pack/actuator.go:421-438 | a family of inputs in which a patch is lost: in the finished file system, the file of the first patch holds the bytes of the second one |
| PatchFiles.PatchesResolveIff | pkg/actuator/pack/actuator.go:391-470 | in the finished file system every patch file holds the bytes of its own key if and only if keys with one generated name hold the same bytes |
| PatchFiles.NothingLost | pkg/actuator/pack/actuator.go:391-470 | every listed resource and patch resolves to its own bytes, and the kustomization file is in place |
| PatchFiles.NoDirectoryInTheWay | pkg/actuator/pack/actuator.go:391-470 | all files lie directly in the pack directory and none is where another one needs a directory, so no write can be refused |
| PatchFiles.SingleKeysRenderAlike | docs/customize-packs.md:54-65 | with secrets of at most one key, every iteration order gives the same rendering or the same error |
| Sums.SumsFromReader | pkg/assets/assets.go:334-360 | succeeds exactly when every line is good and the reader does not break, with the table of the lines; otherwise names the first bad line or the broken reader |
| Sums.ParseConcat | pkg/assets/assets.go:338-357 | reading whole lines one file after the other overrides the first table by the second |
| Sums.UnterminatedIgnored | pkg/assets/assets.go:339-342 | a last line without a newline has no effect |
| Sums.ParseFailsIff | pkg/assets/assets.go:347-355 | reading fails exactly when some terminated line is neither empty nor two words set off by white space, so that a line of white space alone makes it fail |
| Text.FieldsIffTwoWords | pkg/assets/assets.go:351-353 | splitting gives two given fields exactly when the text consists of these two words, white space between them and perhaps around |
| Text.TrimSpaceParts | pkg/assets/assets.go:197-197 | trimming takes white space off both ends, all of it and nothing else |
| Sums.TableLookup | pkg/assets/assets.go:356-356 | a path is in the table exactly when some line records it, with the hash of its last line |
| Sums.SumsRoundTrip | scripts/pack-build.sh:124-135 | printing any table of words in any order and reading it back gives the same table |
| Assets.VerifyResourceIffIntact | pkg/assets/assets.go:303-324 | verification accepts exactly 64 hexadecimal digits, in any letter case, of the digest of the readable contents |
| Hex.EqualFoldIffDecodes | pkg/assets/assets.go:317-321 | a text folds onto a printed digest exactly when it decodes to that digest |
| Hex.DecodeEncode | pkg/assets/assets.go:317-317 | printing a digest loses nothing |
| Hex.EncodeDigits | pkg/assets/assets.go:317-317 | two lower-case digits for each byte, the high one first |
| Assets.VerifyPack | pkg/assets/assets.go:247-273 | the errors of the metadata, then those of the resources in order |
| Assets.PackErrorsIff | pkg/assets/assets.go:247-273 | there are none exactly for a pack with name, version, description and resources that are all intact |
| Assets.PackErrorsAreFaults | pkg/assets/assets.go:247-273 | the errors of a loaded pack are exactly the faults of its directory: a blank description, and for a path no recorded checksum, no readable file, or a checksum that does not decode to the digest |
| Assets.VerifyCollection | pkg/assets/assets.go:55-64 | one entry for each unsound pack, in order |
| Assets.CollectionErrorsIff | pkg/assets/assets.go:55-64 | there is none exactly when all packs are sound |
| Assets.VerificationReports | pkg/assets/assets.go:214-220 | verification reports one entry for each directory of an unsound pack, holding each of its faults once and nothing else |
| Assets.New | pkg/assets/assets.go:128-223 | loading succeeds exactly when a file system is given and every matching directory is acceptable; the collection is faithful to the file system, and an error is one that the file system explains: a failed verification reports for each unsound pack directory exactly its faults (`Assets.Reports`) |
| Assets.AcceptableIff | pkg/assets/assets.go:139-220 | which directory entries are acceptable, spelled out: files; and directories with a readable DESC, a readable SUMS of good lines and, if there are resources and verification is on, no fault |
| Assets.LoadPack | pkg/assets/assets.go:154-203 | one directory: loads exactly when both metadata files can be read and the sums parse, and gives a pack exactly when there is a resource |
| Assets.PackDirIff | pkg/assets/assets.go:133-133 | the pack directories are packs/name/version |
| Assets.ResourcePathIff | pkg/assets/assets.go:173-173 | the resources lie directly in the directory and end in .yaml |
| Assets.PackDirInjective | pkg/assets/assets.go:154-155 | a pack directory determines the name and the version |
| Assets.IdentityIsUnique | pkg/assets/assets.go:138-204 | name and version identify a loaded pack |
| Assets.LoadedPackShape | pkg/assets/assets.go:173-201 | the base directory is packs/name/version and every resource lies directly in it; there is at least one |
| Assets.ExistsIffGet | pkg/assets/assets.go:68-88 | the existence test holds exactly when the lookup succeeds |
| Assets.GetPackFindsEveryMember | pkg/assets/assets.go:80-88 | looking a loaded pack up by its name and version finds that pack |
| PackBuild.AssetsTree.WriteMetadata | scripts/pack-build.sh:77-135 | an invalid spec changes nothing, whatever the tree; otherwise the tree changes to `PackBuild.Built`: the description, and one checksum line for each resource found |
| PackBuild.SpecAcceptedIff | scripts/pack-build.sh:77-89 | a spec is accepted exactly when nothing is empty and every character of name and version is alphanumeric or one of five others |
| PackBuild.FindsIff | scripts/pack-build.sh:124-126 | find lists the files at any depth with the extension in any letter case |
| PackBuild.BuildingChangesMetadataOnly | scripts/pack-build.sh:116-135 | in the whole tree only DESC and SUMS of the pack change; DESC is the description with a newline, unless it is an echo option |
| PackBuild.CheckedSpecHasPackDir | scripts/pack.lib.sh:27-28 | in any locale, an accepted name and version can be read back from their directory path, which is a single word; the loader recognises it exactly when neither is `.` or `..`, which the regexes let through |
| PackBuild.EchoIsBlankIff | scripts/pack-build.sh:117-117 | the description file is blank exactly for a blank description or an echo option |
| PackBuild.BuiltIsReadBack | scripts/pack-build.sh:116-135 | loading a built pack reads back the description and, for each resource, the hex digest of its own bytes |
| PackBuild.BuiltIsAcceptedIff | scripts/pack-build.sh:116-135 | exactly when the loader accepts the directory that pack-build wrote, verification included: `PackBuild.Buildable` |
| PackBuild.BuildingLeavesOtherPacks | scripts/pack-build.sh:116-136 | building one pack does not change how any other one is judged |
| PackBuild.BuildAndLoad | scripts/pack-build.sh:77-135 | end to end over both programs: writing the metadata and then `Assets.New` with verification succeeds exactly for a valid spec and a buildable directory in a tree whose other packs load; then the pack exists exactly when it has a *.yaml entry, and the lookup finds it with this name, version and description and with all *.yaml files as resources, each with the digest of its own bytes |
| Config.Validate | pkg/apis/config/validation/validation.go:25-89 | the reports are exactly the things that are wrong (`Config.IsTrue`: no packs, an empty name, version or reference at an index, a name first used by an earlier index), each once and in order |
| Config.ValidIffWellFormed | pkg/apis/config/validation/validation.go:25-89 | there are none exactly for a non-empty list with distinct names and no empty name, version or reference |
| Config.ReportsAreTrue | pkg/apis/config/validation/validation.go:25-89 | for any configuration, reports and true faults are the same things, and the order is fixed |
| Config.DuplicateCount | pkg/apis/config/validation/validation.go:51-75 | valid or not, the duplicate reports number the packs minus the distinct names |
| Config.DuplicateReportIsFirst | pkg/apis/config/validation/validation.go:55-67 | each names a later pack and the first pack of its name |
| Admission.ShootValidator.Validate | pkg/admission/validator/shoot.go:105-120 | accepts exactly what `Admission.Admits` says: deleting shoots, absent or disabled extensions, and acceptable configurations; a refusal comes with its justification |
| Admission.AdmitsIff | pkg/admission/validator/shoot.go:105-191 | what is admitted, spelled out: a shoot that is being deleted, or whose first extension of type shoot-pack, if any, is switched off or has a configuration that decodes, has no fault and names known packs and referenced core v1 Secrets |
| Admission.ShootValidator.GetExtension | pkg/admission/validator/shoot.go:124-138 | the first extension of this type, if any |
| Admission.ShootValidator.ValidateExtension | pkg/admission/validator/shoot.go:142-191 | no error exactly when there is nothing to validate or the configuration is acceptable; an error comes with its justification |
| Admission.AcceptedNeverMisconfigured | pkg/actuator/pack/actuator.go:240-265 | no attempt on an acceptable configuration ends in a configuration error |
| Admission.SuccessIsAcceptable | pkg/admission/validator/shoot.go:153-188 | what the reconciler carries out on an awake shoot is acceptable to the webhook |
| Admission.AdmissionAgreesWithReconcile | pkg/admission/validator/shoot.go:105-191 | both directions for whole admission requests |
| DeepCopy.PatchSpecDeepCopyInto | pkg/apis/config/generated.deepcopy.go:86-94 | the slot gets an equal value with a selector cell of its own |
| DeepCopy.PackDeepCopy | pkg/apis/config/generated.deepcopy.go:14-34 | an equal pack, nil and empty slices kept apart, sharing no cell with anything |
| DeepCopy.PackConfigSpecDeepCopy | pkg/apis/config/generated.deepcopy.go:63-83 | an equal specification whose cells, at every depth, are new |
| DeepCopy.PackConfigDeepCopy | pkg/apis/config/generated.deepcopy.go:37-52 | the same for the whole configuration |
| DeepCopy.EqualPacksEqualParts | pkg/apis/config/generated.deepcopy.go:14-34 | equal values mean equal names, versions, slices, references and selectors |
| DeepCopy.EqualSpecsEqualParts | pkg/apis/config/generated.deepcopy.go:63-83 | and that for each pack of a configuration, nil and empty slices kept apart |
| DeepCopy.WritesElsewhereDoNotShow | pkg/apis/config/generated.deepcopy.go:63-73 | writes outside the cells of a configuration do not change it, so writes through a copy never show in its source, nor the other way round |

## Left out

- PackBuild.AssetsTree.WriteMetadata: requires resource paths without white space and backslashes, because sha256sum escapes such names and `read` trims them; names with them are not modelled.
- PackBuild.BuildAndLoad: paths are not resolved, so a spec named `.` or `..`, which the regexes let through, is not covered.
- Assets.New: directory names have no glob meta-characters, with which the pattern for the resources of a directory would not mean that directory. Any entry may be unreadable; Go's glob does not report a directory it cannot list.
- Store.ApiServer.CreateForShoot: a ManagedResource and its secret are one object; a call that wrote only one of the two is not modelled.
- Actuator.Actuator.KustomizeFilesystemForPack: the in-memory file system holds files only and takes every write; `PatchFiles.NoDirectoryInTheWay` shows that none meets a directory. The internal errors of that file system are not modelled.
- DeepCopy.PackConfigDeepCopy: nil receivers, which give nil, are left out.
- Guards against nil clusters, shoots, packs and clients: the callers shown in the source never pass them.
- The text of error messages and logging: errors have a kind and the names or indices they concern.
- Strings are sequences of characters; file contents that are not valid UTF-8 are not modelled.
- A `package()` function, tool set-up, and everything in the shell scripts beyond checking the spec and writing the metadata.
- The fields of the actuator for the Gardener version and feature gates, which nothing modelled reads, and the functional options.
- Command line, controller and manager wiring, heartbeat, metrics, generated conversions, charts: no state or parsing of interest.
- The bytes of SHA-256, kustomize, YAML, the decoder and the registry's serializer: parameters.
