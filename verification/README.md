# oadp-non-admin: a verified model of its reconcilers

This project models the controllers of the OpenShift API for Data Protection Non-Admin
project as one distributed protocol and proves what it is for: users back up and restore
their own namespaces through objects that own Velero's, under rules the administrator sets.

`dafny verify dfyconfig.toml` checks everything. Nothing is executed.

## How it is built

* **One versioned store.** `Objects.dfy` has the custom resources, the objects in the OADP
  namespace, labels and annotations. `Cluster.dfy` has the store, every write an actor can make
  to it (each API call is one atomic, versioned write), and the rule that says which actor may
  make which write in which state. Users, administrators, Velero, the collector and the
  synchronizer are arbitrary within their rule.
* **Runs.** `Protocol.dfy` proves an invariant that every permitted write keeps. A run
  (`Runs.dfy`) is any sequence of permitted writes by all actors, so a crash between two writes
  is nothing but a run that goes on with somebody else. The theorems over whole runs are there.
* **The rules are the controllers' own.** `ApiClient.dfy` is the API server as one worker sees
  it: before each call the rest of the world makes any permitted writes it likes, a call may
  fail before or after taking effect, and reads may be stale if the configuration says so.
  The classes in `Nabsl.dfy`, `Nab.dfy` and `Nar.dfy` follow the step functions of the three
  controllers. In an audited session each of their writes has to be shown permitted in the state
  it meets, so the theorems over runs hold of these methods and not just of a rule set;
  `Interference.dfy` has what a worker may count on meanwhile. There is one worker per object,
  which is what the work queue of controller-runtime guarantees.
* **Passes.** Undisturbed, each method equals a step function (`NabslPass.dfy`, `NabPass.dfy`,
  `NarPass.dfy`), and a Reconcile equals their composition. `Approval.dfy`, `Settling.dfy` and
  `Deletion.dfy` prove where passes lead: to a fixed point that follows the decision, to a
  finished object, to the end of a deletion. `LocationOutcomes.dfy` and `ObjectOutcomes.dfy` say,
  of the stored objects themselves and case by case, what a pass leaves.
* **Runs made of passes.** `Reach.dfy` says which state a run can come to from which, and
  `LocationRuns.dfy` and `ObjectRuns.dfy` prove that passes are pieces of runs. The exact
  conditions where a claim one might expect does not hold are in `Limits.dfy`, and the runs that
  show it, there and in `Races.dfy`, are built from whole passes.
* **The other parts.** `Collector.dfy` interleaves the five sweeps call by call and has them as
  loops; `Synchronizer.dfy` has the rebuilding pass, its convergence and the round trip;
  `Queue.dfy` and `QueueRuns.dfy` have the positions and the cache of them in the status, which
  `QueueRefinement.dfy` ties to the store; `Naming.dfy` and `Specs.dfy` the pure helpers.

A spec is a map from fields to values in which an absent field is Go's zero value; the enforced
struct is walked in a given field order. Reflection, `DeepCopy` and the informer cache disappear
with that. A condition is a status, a reason and a message class, kept in a map. A NACUUID is
generated from a 36-character UUID given to each session that ends no name in use.

## What the configuration fixes

`staleReads` lets a Get of a custom resource return any version it ever had and a lookup by label
miss what is there or return an earlier version; other lists and Gets are current. The theorems
that need current reads say so. `raced` names the NACUUIDs whose requests the collector may delete
on the strength of an old list; any other request it deletes is not needed at that moment: it has
no source, or the owner it names is gone, recreated since, without finalizer or being deleted. `reimports` lets Velero bring back, from object
storage, backups with their labels and annotations, and with it synchronizer steps and objects
with a sync label occur in runs; only the claims about backups having their origin need it off.
`requireApproval` is the approval mode. The spec of a location is frozen under current reads, with
approval required, and its own NACUUID not among those raced; what happens to other requests makes
no difference.

Where the code and its comments differ, the code is followed: the comment of
`deleteVeleroBackupObjects` speaks of all objects, the code handles one; the storage location
controller's delete path looks at the result of a list before its error; `GetBackupQueueInfo` is
said to return nil for an unstamped backup and returns position 0.

## Model

| member | source | states |
|---|---|---|
| `Naming.GenerateNacObjectUUID` | internal/common/function/function.go:370-408 | the generated name, with every slice in range, for every namespace, name and 36-character UUID |
| `Naming.GeneratedNameBounds` | internal/common/function/function.go:370-408 | at most 63 characters, ends in the UUID, keeps a namespace of up to 25 characters whole, and is the plain joined name exactly when that fits |
| `Naming.GeneratedNamesDiffer` | internal/common/function/function.go:370-408 | different UUIDs give different names whatever is cut off |
| `Naming.PrefixesAreDisjoint` | internal/common/function/function.go:819-824 | two prefixes are equal only for the same namespace and the same custom prefix |
| `Specs.FindViolation` | internal/common/function/function.go:162-176 | the first enforced field the user contradicts; none exactly when user and enforced spec agree on all fields both set |
| `Specs.Merge` | internal/controller/nonadminbackup_controller.go:676-685 | the loop over the enforced struct yields the enforced spec overridden by the user's own fields |
| `Specs.MergeHonoursEnforcement` | internal/common/function/function.go:162-176 | validation and merge agree: a spec passes if and only if its merge has every enforced value; fields not enforced are the user's; merging again changes nothing and passes again |
| `Specs.BuildBackupFields` | internal/controller/nonadminbackup_controller.go:676-727 | the Velero backup spec: merge, own namespace, location, exclusion lists with their wildcard cases |
| `Specs.BackupStaysInNamespace` | internal/controller/nonadminbackup_controller.go:687-727 | for all specs: included namespaces are exactly the origin namespace, the location is the Velero one exactly when one was asked for, and the non-admin resources are shut out |
| `Specs.RestoreStaysInNamespace` | internal/controller/nonadminrestore_controller.go:338-355 | the same for restores, where the namespace is set before the merge |
| `Specs.LocationsAreSeparate` | internal/controller/nonadminbackupstoragelocation_controller.go:896-928 | locations of different namespaces have different prefixes, and each uses the secret of its own NACUUID only |
| `Specs.BackupIsAsAsked` | internal/controller/nonadminbackup_controller.go:676-727 | every field of the built backup spec: the exclusion lists keep every name asked for and grow by the named resources, unchanged with the wildcard, in the new style if and only if one of the four new-style lists is asked for; the location; and every other field is the user's, else the enforced one, else absent |
| `Specs.RestoreIsAsAsked` | internal/controller/nonadminrestore_controller.go:338-355 | the same for the built restore spec |
| `Specs.LocationIsAsAsked` | internal/controller/nonadminbackupstoragelocation_controller.go:896-928 | every field of the built location spec: the user's, else the enforced one, else absent; the user's key in the secret of the NACUUID; the user's object storage, else the enforced one, under the prefix of the namespace and the prefix asked for |
| `Objects.WrittenMetadataChecks` | internal/common/function/function.go:702-808 | written metadata leads back to its object, and passes the checkers if and only if the names fit their strict bound |
| `NabslPass.LocationSpecValidIff` | internal/common/function/function.go:239-322 | a location spec is valid if and only if each single rule holds, in whatever order |
| `NabPass.BackupSpecValidIff` | internal/common/function/function.go:108-179 | a backup spec is valid if and only if each single rule holds, in whatever order |
| `NarPass.RestoreSpecValidIff` | internal/common/function/function.go:182-236 | a restore spec is valid if and only if each single rule holds, in whatever order |
| `Protocol.StepKeepsInv` | internal/controller/nonadminbackup_controller.go:148-161 | every write any actor may make, in any state, keeps the invariant: names, ownership, one object per NACUUID, one delete request per backup, frozen specs; Velero bringing a backup back from object storage is one of these writes |
| `Runs.NoOrphans` | internal/controller/nonadminbackup_controller.go:605-620 | in every run, each Velero restore, location or secret with NAC labels, and each backup unless Velero brings backups back, has its origin present, with finalizer and that NACUUID |
| `Runs.OneObjectPerNacuuid` | internal/controller/nonadminbackup_controller.go:728-743 | at most one object of a kind per NACUUID, even when all reads and lists may be stale |
| `Runs.OneDeleteRequestPerBackup` | internal/controller/nonadminbackup_controller.go:301-348 | in every reachable state a Velero backup has at most one delete request |
| `Runs.OneDeleteRequestWhileItLasts` | internal/controller/nonadminbackup_controller.go:313-337 | over a whole run no second delete request is written while nobody takes the first away |
| `Runs.RequestsBalance` | internal/controller/nonadminbackup_controller.go:313-337 | over any stretch of any run the delete requests written for a backup are exactly those taken away, give or take the one there is at either end; so a second is written only after the first was taken away |
| `Runs.DeleteRequestsNameTheirBackup` | internal/controller/nonadminbackup_controller.go:322-335 | in every reachable state, stale reads included, each delete request asks for the backup its label names |
| `Runs.CreatedMeansQueued` | internal/controller/nonadminbackup_controller.go:645-673 | phase Created comes with condition Queued and a NACUUID, in every reachable state |
| `Runs.NacuuidIsWriteOnce` | internal/controller/nonadminbackup_controller.go:572-600 | a NACUUID once set stays for the life of the object, even with stale reads |
| `Runs.RestoreAtMostOnce` | internal/controller/nonadminrestore_controller.go:308-331 | after Queued was recorded no controller creates that Velero restore in any later step, whatever Velero does to backups |
| `Runs.GoneNacuuidStaysGone` | internal/controller/nonadminbackupstoragelocation_controller.go:466-491 | the NACUUID of an object that is gone is never carried again, by a later object of its name either; only a backup Velero brings back may get its own again |
| `Runs.LateCollectionIsPermitted` | internal/controller/garbagecollector_controller.go:232-259 | having not found the origin of a request, the collector may delete the request at any later moment of the run, even when an object of that name has been created meanwhile |
| `Runs.LateCollectionFindsNothing` | internal/controller/garbagecollector_controller.go:71-98 | for restores, locations, secrets, and for backups unless Velero brings them back: once the collector has not found the origin of an object it listed, there is never again an object of that name to delete |
| `Runs.LocationSpecIsFrozen` | internal/controller/nonadminbackupstoragelocation_controller.go:639-737 | with current reads and approval required, for each location whose own request the collector does not take while it is needed, whatever it does to others: as long as the owner is not being deleted, the location has the spec built from the one frozen in its request |
| `Runs.LaterEditsNeverReachLocation` | internal/controller/nonadminbackupstoragelocation_controller.go:538-551 | under the same rules for this one location: it has the same spec at any two moments of a run, whatever the user edited in between |
| `Runs.FrozenLocationIsAsApproved` | internal/controller/nonadminbackupstoragelocation_controller.go:896-928 | under the same rules, at every moment of every run: each field of the location is the approved one, else the enforced one, with its own secret and under its own namespace's prefix |
| `Interference.OthersRely` | internal/controller/nonadminbackupstoragelocation_controller.go:494-512 | what every write of anybody else leaves to a worker that holds its finalizer: status, names, its source record, its delete request |
| `ApiClient.Client.FindByLabel` | internal/common/function/function.go:412-450 | none, the one, or an error when several objects carry the label; an empty label value is refused |
| `ApiClient.Client.CreateOrUpdate` | internal/controller/nonadminbackupstoragelocation_controller.go:781-793 | creates, updates or leaves the object, with the mutation applied to what is stored |
| `Nabsl.NabslReconciler.UpdateStatusWithRetry` | internal/controller/nonadminbackupstoragelocation_controller.go:124-154 | against any interference: at most five attempts, at most one write, which is the update applied to exactly the version replaced; on any error but a lost reply nothing was written |
| `Nabsl.NabslReconciler.InitNaBSLCreate` | internal/controller/nonadminbackupstoragelocation_controller.go:405-422 | phase New once; allowed against every adversary, equal to the step function when undisturbed |
| `Nabsl.NabslReconciler.ValidateBslSpec` | internal/common/function/function.go:239-322 | the first objection to a location spec, in the order of the code |
| `Nabsl.NabslReconciler.ValidateNaBSLSpec` | internal/controller/nonadminbackupstoragelocation_controller.go:425-463 | records the objection and fails, or records acceptance |
| `Nabsl.NabslReconciler.SetVeleroBSLUUIDInNaBSLStatus` | internal/controller/nonadminbackupstoragelocation_controller.go:466-491 | sets a NACUUID only where there is none |
| `Nabsl.NabslReconciler.CreateNonAdminRequest` | internal/controller/nonadminbackupstoragelocation_controller.go:630-660 | updates the phase of the request found, or creates one |
| `Nabsl.NabslReconciler.UpdateExistingRequest` | internal/controller/nonadminbackupstoragelocation_controller.go:639-672 | phase follows the decision; with approval off the decision becomes approve |
| `Nabsl.NabslReconciler.CreateRequest` | internal/controller/nonadminbackupstoragelocation_controller.go:675-736 | creates the request, then records NACUUID, origin and requested spec, also after a conflict |
| `Nabsl.NabslReconciler.SetFinalizerOnNaBSL` | internal/controller/nonadminbackupstoragelocation_controller.go:494-511 | the finalizer is on before anything is created |
| `Nabsl.NabslReconciler.EnsureNonAdminRequest` | internal/controller/nonadminbackupstoragelocation_controller.go:514-562 | a changed spec is refused, a request without source requeues, otherwise the decision is followed |
| `Nabsl.NabslReconciler.FollowDecision` | internal/controller/nonadminbackupstoragelocation_controller.go:574-596 | approve goes on; pending, reject and anything else withdraw |
| `Nabsl.NabslReconciler.Withdraw` | internal/controller/nonadminbackupstoragelocation_controller.go:598-625 | secret and location are deleted, then the status says so |
| `Nabsl.NabslReconciler.DeleteVeleroBSLSecret` | internal/controller/nonadminbackupstoragelocation_controller.go:335-357 | ends with no secret under the NACUUID |
| `Nabsl.NabslReconciler.DeleteVeleroBSL` | internal/controller/nonadminbackupstoragelocation_controller.go:360-383 | ends with no location under the NACUUID |
| `Nabsl.NabslReconciler.SyncSecrets` | internal/controller/nonadminbackupstoragelocation_controller.go:740-779 | looks up the user's secret and the Velero copy, with the skipping cases |
| `Nabsl.NabslReconciler.WriteSecret` | internal/controller/nonadminbackupstoragelocation_controller.go:781-853 | the Velero secret holds the user's data; the condition says created, updated or failed |
| `Nabsl.NabslReconciler.CreateVeleroBSL` | internal/controller/nonadminbackupstoragelocation_controller.go:856-884 | looks up location and secret; without secret nothing is created |
| `Nabsl.NabslReconciler.BuildLocationFields` | internal/controller/nonadminbackupstoragelocation_controller.go:1076-1090 | enforced merge, own secret and key, namespaced prefix |
| `Nabsl.NabslReconciler.WriteLocation` | internal/controller/nonadminbackupstoragelocation_controller.go:884-952 | the Velero location has the built spec; with current reads, approval required and its own request not raced, only ever the one frozen in the request while the owner is not being deleted |
| `Nabsl.NabslReconciler.RecordLocation` | internal/controller/nonadminbackupstoragelocation_controller.go:954-996 | condition and phase Created in one write, or none when nothing changed |
| `Nabsl.NabslReconciler.SyncStatus` | internal/controller/nonadminbackupstoragelocation_controller.go:999-1050 | repeats the health of the location in the status |
| `Nabsl.NabslReconciler.InitNaBSLDelete` | internal/controller/nonadminbackupstoragelocation_controller.go:260-271 | phase Deleting |
| `Nabsl.NabslReconciler.DeleteNonAdminRequest` | internal/controller/nonadminbackupstoragelocation_controller.go:310-332 | deletes the one request of this NACUUID |
| `Nabsl.NabslReconciler.DeleteNonAdminBackups` | internal/controller/nonadminbackupstoragelocation_controller.go:274-307 | every backup of the namespace whose StorageLocation is this location is gone or marked; every other object is as it was |
| `Nabsl.NabslReconciler.RemoveNaBSLFinalizer` | internal/controller/nonadminbackupstoragelocation_controller.go:387-402 | the finalizer goes only when no secret or location is left |
| `Nabsl.NabslReconciler.ReconcileDelete` | internal/controller/nonadminbackupstoragelocation_controller.go:199-211 | undisturbed, the location, its request, secret and Velero location are gone, its backups gone or marked, all else unchanged |
| `Nabsl.NabslReconciler.ReconcileCreate` | internal/controller/nonadminbackupstoragelocation_controller.go:212-226 | the nine steps in order are the pass function |
| `Nabsl.NabslReconciler.Reconcile` | internal/controller/nonadminbackupstoragelocation_controller.go:170-236 | every write is one the protocol allows, against every adversary; undisturbed it is exactly the pass |
| `Approval.RequestLeads` | internal/controller/nonadminbackupstoragelocation_controller.go:630-737 | what the request step does to the view of one location, with and without a request |
| `Approval.EnsureLeads` | internal/controller/nonadminbackupstoragelocation_controller.go:538-573 | the three ways a request can fail to match |
| `Approval.DecisionLeads` | internal/controller/nonadminbackupstoragelocation_controller.go:575-626 | what each decision leads to |
| `Approval.SecretLeads` | internal/controller/nonadminbackupstoragelocation_controller.go:740-853 | what the secret step does to the view |
| `Approval.LocationLeads` | internal/controller/nonadminbackupstoragelocation_controller.go:856-996 | what the location step does to the view |
| `Approval.PassLeads` | internal/controller/nonadminbackupstoragelocation_controller.go:212-226 | a whole pass over a location with an initialised request, as a function of the view, all else in the cluster unchanged; it never requeues |
| `Approval.PassedTwice` | internal/controller/nonadminbackupstoragelocation_controller.go:405-626 | a second pass over a complete view changes nothing |
| `Approval.PassesStabilise` | internal/controller/nonadminbackupstoragelocation_controller.go:405-463 | from any reachable state with a valid spec and no half-initialised request, two passes reach a state a third leaves as it is, versions aside; with the requested spec, secret and location exist, with the enforced spec, exactly when the decision is approve |
| `Approval.ThirdPassWritesIffApproved` | internal/controller/nonadminbackupstoragelocation_controller.go:575-582 | in the state two passes lead to, a third writes nothing at all, not even a version, if and only if the request is not approved for the spec as it is |
| `Approval.HalfInitialisedStalls` | internal/controller/nonadminbackupstoragelocation_controller.go:552-562 | over a half-initialised request a pass requeues and gets nowhere |
| `Approval.CollectionHeals` | internal/controller/garbagecollector_controller.go:224-263 | one collection in any interleaving and either mode removes it, and two passes then leave a complete request and follow its decision |
| `LocationOutcomes.InvalidLocationIsRejected` | internal/controller/nonadminbackupstoragelocation_controller.go:425-463 | a location spec that breaks any rule ends the pass in BackingOff and not accepted, with nothing else changed |
| `LocationOutcomes.FirstPassAsks` | internal/controller/nonadminbackupstoragelocation_controller.go:675-736 | a pass without request makes one with the decision and phase of the approval mode, the NACUUID, the object and the spec asked for, accepts the spec, and touches no secret or location |
| `LocationOutcomes.PassFollowsRequest` | internal/controller/nonadminbackupstoragelocation_controller.go:575-626 | a pass over a request with its source: the phase of the request says which decision was found; a changed spec is refused and changes nothing; otherwise phase, conditions, secret with the user's data, location as asked and mirrored health are those of the decision |
| `LocationOutcomes.ForeignRequestIsNotFollowed` | internal/controller/nonadminbackupstoragelocation_controller.go:514-573 | without its request the step fails; a request for another NACUUID withdraws |
| `LocationOutcomes.NothingWithoutSecret` | internal/controller/nonadminbackupstoragelocation_controller.go:740-884 | a user's secret that is gone fails the step; without Velero's secret no location is made |
| `Collector.WrittenIsDoomedIffOrphaned` | internal/controller/garbagecollector_controller.go:71-98 | what the controllers label is collected exactly when its origin is gone, label bounds aside |
| `Collector.NothingOwnedIsDoomed` | internal/controller/garbagecollector_controller.go:141-177 | no restore, location or secret with its owner is ever collected, nor a backup unless Velero brings backups back |
| `Collector.CollectionIsExact` | internal/controller/garbagecollector_controller.go:63-267 | at every moment of every interleaving of the five sweeps only doomed objects are gone, and in the end precisely these |
| `Collector.CollectionsConverge` | internal/controller/garbagecollector_controller.go:63-267 | all complete interleavings, for all list orders, end in the same store, versions aside |
| `Collector.CollectionKeepsInv` | internal/controller/garbagecollector_controller.go:217-265 | a collection with current lists keeps the invariant of the protocol |
| `Collector.CollectionTakesWhatItShould` | internal/controller/garbagecollector_controller.go:52-272 | after any finished collection, by what is on the objects: with approval off no listed request is left; with approval on those and only those whose source names a location that is there; of the other kinds exactly those labelled and annotated with an origin that is not there are gone; all else is untouched |
| `Collector.GarbageCollector.SweepOrphans` | internal/controller/garbagecollector_controller.go:65-101 | the loop deletes exactly the doomed objects of its kind |
| `Collector.GarbageCollector.SweepRequests` | internal/controller/garbagecollector_controller.go:217-265 | the loop over requests with its shouldDelete flag |
| `Collector.GarbageCollector.Reconcile` | internal/controller/garbagecollector_controller.go:52-272 | the sweeps one after the other are one of the interleavings |
| `Limits.FinalizerRemovalExact` | internal/controller/nonadminbackupstoragelocation_controller.go:360-402 | taking the finalizer off keeps ownership if and only if nothing under the NACUUID is left |
| `Limits.RequestRemovalExact` | internal/controller/garbagecollector_controller.go:224-263 | deleting a request keeps locations frozen at that moment if and only if its owner's location is not live |
| `Limits.CollectorGuardExact` | internal/controller/garbagecollector_controller.go:224-263 | a request may go without unfreezing a location, at once or by the location write a worker was permitted and is about to make, if and only if it is not needed: no source, or the owner it names gone, another one, without finalizer or being deleted |
| `Limits.RequestWrittenIff` | internal/controller/nonadminbackup_controller.go:307-336 | from every reachable state and for every outcome of a pass: it writes a delete request if and only if the object is marked for deletion with its data, the backup is there and no request for it is; and then that one only, asking for the one backup that carries the NACUUID, with the metadata of the object |
| `Limits.FurtherRequestIff` | internal/controller/nonadminbackup_controller.go:307-336 | over a whole run: the next pass writes a further request if and only if all earlier ones were taken away, the backup is still there, and the object is marked for deletion with its data |
| `Limits.SecondDeleteRequest` | internal/controller/nonadminbackup_controller.go:377-439 | from every reachable state with a held backup, three whole passes and two edits make a run that writes a request, deletes it and writes a second one |
| `Limits.ToggleIsOpen` | internal/controller/nonadminbackup_controller.go:186-213 | such a state is within reach of every backup that was made and not yet asked to be deleted |
| `Races.CollectorRaceUnfreezes` | internal/controller/garbagecollector_controller.go:217-265 | from every reachable state, for every new location with a valid spec: two passes of the controller, the decision of the administrator and a collector that lists between the two writes that make the request form a run at whose end the approved request of a served location is deleted and its spec no longer frozen, while every other location keeps its own |
| `Races.CollectorRaceBeforeServing` | internal/controller/nonadminbackupstoragelocation_controller.go:856-952 | the same with the collector deleting after the second pass found the request approved and before it puts the location: nothing is unfrozen at that moment, and the location put next has no frozen source |
| `Races.CollectorTakesReturnedBackup` | internal/controller/garbagecollector_controller.go:71-98 | for a backup Velero brought back: the collector does not find its origin, the synchronizer and the controller bring the origin back to phase Created, and the collector deletes its backup |
| `Races.RaceIsOpen` | internal/controller/nonadminbackupstoragelocation_controller.go:425-463 | a cluster that holds nothing but the user's secret is such a state |
| `LocationRuns.LocationPassIsRun` | internal/controller/nonadminbackupstoragelocation_controller.go:212-226 | every undisturbed pass over a location from a reachable state, whatever its spec and decision, is a piece of a run |
| `ObjectRuns.BackupPassIsRun` | internal/controller/nonadminbackup_controller.go:141-161 | so is every creating or syncing pass over a backup |
| `ObjectRuns.RestorePassIsRun` | internal/controller/nonadminrestore_controller.go:98-106 | so is every creating pass over a restore |
| `ObjectRuns.DeletingPassIsRun` | internal/controller/nonadminbackup_controller.go:117-139 | so is a deleting pass over a backup or restore, on each of its paths |
| `Nab.NabReconciler.InitNabCreate` | internal/controller/nonadminbackup_controller.go:485-503 | phase New once |
| `Nab.NabReconciler.ContainsOnlyNamespace` | internal/common/function/function.go:98-105 | true exactly when no other namespace is listed |
| `Nab.NabReconciler.ValidateBackupSpec` | internal/common/function/function.go:108-179 | the first objection to a backup spec, in the order of the code |
| `Nab.NabReconciler.CheckLocation` | internal/common/function/function.go:127-152 | the location must exist, be created, and be available in Velero |
| `Nab.NabReconciler.ValidateSpec` | internal/controller/nonadminbackup_controller.go:518-560 | records the objection and fails, or records acceptance |
| `Nab.NabReconciler.SetBackupUUIDInStatus` | internal/controller/nonadminbackup_controller.go:572-603 | sets a NACUUID only where there is none, from the sync label if there is one |
| `Nab.NabReconciler.SetFinalizerOnNonAdminBackup` | internal/controller/nonadminbackup_controller.go:605-620 | the finalizer is on before the Velero backup is created |
| `Nab.NabReconciler.CreateVeleroBackupAndSync` | internal/controller/nonadminbackup_controller.go:632-755 | found and ours: recorded; lost: reported; otherwise created and recorded |
| `Nab.NabReconciler.CreateVeleroBackup` | internal/controller/nonadminbackup_controller.go:674-754 | creates the backup to order under the NACUUID, or nothing |
| `Nab.NabReconciler.RecordBackup` | internal/controller/nonadminbackup_controller.go:757-812 | queue position, phase, condition and mirrored backup in one write |
| `Nab.NabReconciler.SetStatusAndConditionForDeletionAndCallDelete` | internal/controller/nonadminbackup_controller.go:186-213 | marks status and object; goes on only once the object is marked |
| `Nab.NabReconciler.SetStatusForDirectKubernetesAPIDeletion` | internal/controller/nonadminbackup_controller.go:229-252 | marks the status |
| `Nab.NabReconciler.DeleteNonAdminRestores` | internal/controller/nonadminbackup_controller.go:254-273 | every restore of the namespace whose BackupName is this backup is gone or marked; every other object is as it was |
| `Nab.NabReconciler.CreateVeleroDeleteBackupRequest` | internal/controller/nonadminbackup_controller.go:292-362 | asks Velero once, repeats the outcome, or lets the object go when the backup is gone |
| `Nab.NabReconciler.DeleteDeleteBackupRequestObjects` | internal/controller/nonadminbackup_controller.go:417-439 | deletes the one delete request |
| `Nab.NabReconciler.DeleteVeleroBackupObjects` | internal/controller/nonadminbackup_controller.go:377-403 | deletes the backup in one pass and lets the object go in a later one |
| `Nab.NabReconciler.RemoveNabFinalizer` | internal/controller/nonadminbackup_controller.go:458-470 | only when no Velero backup of the NACUUID is left |
| `Nab.NabReconciler.Reconcile` | internal/controller/nonadminbackup_controller.go:98-173 | the path choice; every write is one the protocol allows, and undisturbed the pass is exactly the one of its path |
| `Nab.MissingBackupIsReported` | internal/controller/nonadminbackup_controller.go:647-657 | the branch for a lost backup always has an error to report, though the code would have none for an object in phase Created that was never queued; the message on the condition is that error |
| `ObjectOutcomes.LocationUsableIff` | internal/common/function/function.go:127-152 | a backup may use a location if and only if the user's location is created and Velero's one under its NACUUID is available |
| `ObjectOutcomes.InvalidBackupIsRejected` | internal/controller/nonadminbackup_controller.go:518-560 | a backup spec that breaks any rule ends the pass in BackingOff and not accepted, with nothing else changed |
| `ObjectOutcomes.BackupIsMadeAsAsked` | internal/controller/nonadminbackup_controller.go:674-812 | a finished pass: the backup made is as asked in every field, in the Velero location of the user's location of that name; the status has the NACUUID, phase Created, both conditions, the position and the mirrored backup |
| `ObjectOutcomes.LostBackupBacksOff` | internal/controller/nonadminbackup_controller.go:647-672 | a missing backup of a synced or created object is not made again; the status backs off and says what was lost |
| `ObjectOutcomes.OnlyValidLabelsSync` | internal/controller/nonadminbackup_controller.go:647-652 | an object without a valid sync label that was not created yet is never reported as having lost its backup |
| `ObjectOutcomes.OthersBackupIsRefused` | internal/controller/nonadminbackup_controller.go:745-755 | a found backup that names another namespace is refused; without the location asked for none is made |
| `ObjectOutcomes.DeletingIsSaid` | internal/controller/nonadminbackup_controller.go:186-252 | after every pass over an object being deleted its status, if it is still there, says Deleting, and on which path |
| `ObjectOutcomes.OutcomeIsShown` | internal/controller/nonadminbackup_controller.go:339-362 | a pass that finds the delete request shows its outcome in the status |
| `Settling.BackupPassSettles` | internal/controller/nonadminbackup_controller.go:141-161 | on the path without sync label, a finished pass has made the Velero backup to order if there was none, with the current queue position recorded, and a second pass writes nothing |
| `Nar.NarReconciler.Init` | internal/controller/nonadminrestore_controller.go:197-210 | phase New once |
| `Nar.NarReconciler.ValidateRestoreSpec` | internal/common/function/function.go:182-236 | the first objection to a restore spec, in the order of the code |
| `Nar.NarReconciler.ValidateSpec` | internal/controller/nonadminrestore_controller.go:212-250 | records the objection and fails, or records acceptance |
| `Nar.NarReconciler.SetUUID` | internal/controller/nonadminrestore_controller.go:252-277 | sets a NACUUID only where there is none |
| `Nar.NarReconciler.SetFinalizer` | internal/controller/nonadminrestore_controller.go:279-291 | the finalizer is on before the Velero restore is created |
| `Nar.NarReconciler.CreateVeleroRestore` | internal/controller/nonadminrestore_controller.go:293-375 | found: recorded; lost after it was queued: reported; otherwise created and recorded |
| `Nar.NarReconciler.BuildAndCreate` | internal/controller/nonadminrestore_controller.go:330-375 | creates the restore to order, only for an object not yet queued |
| `Nar.NarReconciler.BuildRestoreFields` | internal/controller/nonadminrestore_controller.go:338-355 | namespace and backup name, then the merge, then the exclusion |
| `Nar.NarReconciler.RecordRestore` | internal/controller/nonadminrestore_controller.go:370-425 | queue position, phase, condition and mirrored restore in one write |
| `Nar.NarReconciler.SetStatusAndConditionForDeletion` | internal/controller/nonadminrestore_controller.go:134-154 | marks the status |
| `Nar.NarReconciler.DeleteVeleroRestoreAndRemoveFinalizer` | internal/controller/nonadminrestore_controller.go:156-195 | deletes the restore in one pass and lets the object go in a later one |
| `Nar.NarReconciler.Reconcile` | internal/controller/nonadminrestore_controller.go:75-123 | every write is one the protocol allows, and undisturbed the pass is exactly the one of its path |
| `NarPass.LostRestoreBacksOff` | internal/controller/nonadminrestore_controller.go:308-331 | a queued restore whose Velero restore is missing ends in BackingOff, not accepted, and nothing is created |
| `ObjectOutcomes.InvalidRestoreIsRejected` | internal/controller/nonadminrestore_controller.go:212-250 | a restore spec that breaks any rule ends the pass in BackingOff and not accepted, with nothing else changed |
| `ObjectOutcomes.RestoreIsMadeAsAsked` | internal/controller/nonadminrestore_controller.go:330-425 | a finished pass: the restore made is of the Velero backup of the user's backup it names, as asked in every field; the status shows it |
| `ObjectOutcomes.RestoreNeedsItsBackup` | internal/controller/nonadminrestore_controller.go:330-336 | a restore of a backup that is not there or not made is not made |
| `Settling.RestorePassSettles` | internal/controller/nonadminrestore_controller.go:98-106 | a finished pass has made the Velero restore to order if there was none, and a second pass writes nothing |
| `Deletion.ReachableIsClean` | internal/controller/nonadminbackup_controller.go:605-620 | finalizer means NACUUID, no finalizer means no Velero object, and there is at most one delete request, in every reachable state |
| `Deletion.PassIsNearer` | internal/controller/nonadminbackup_controller.go:186-470 | every undisturbed pass of an object being deleted lowers the measure unless it waits for Velero, and the object goes only when its Velero object is gone |
| `Deletion.PassDeletesItsRestores` | internal/controller/nonadminbackup_controller.go:254-273 | a whole pass deletes the restores of this backup and touches no other object of any user |
| `Deletion.AnswerIsForThisBackup` | internal/controller/nonadminbackup_controller.go:322-335 | what Velero is asked to delete is the backup of this object |
| `Deletion.AnswerIsNearer` | internal/controller/nonadminbackup_controller.go:339-362 | the Velero step waited for, which deletes the backup that the delete request names, lowers the measure |
| `Deletion.DeletionTerminates` | internal/controller/nonadminbackup_controller.go:117-139 | a deletion has at most as many steps as its measure, at most 31, and leaves no Velero object |
| `Deletion.CutPassLosesNothing` | internal/controller/nonadminbackup_controller.go:186-470 | a pass cut off before its first write or between any two of its writes leaves the object no further from its end |
| `Deletion.CrashesOnlyDelay` | internal/controller/nonadminbackup_controller.go:148-173 | however often passes are cut off or repeated, the whole steps of a deletion are at most its measure, and it is over only when the Velero object is gone |
| `Deletion.DeletionIsNeverStuck` | internal/controller/nonadminrestore_controller.go:93-98 | as long as the object is there a next step exists |
| `Synchronizer.SynchronizerReconciler.WatchLocations` | internal/controller/nonadminbackupsynchronizer_controller.go:67-93 | the watched locations and the user's names of those that are a user's |
| `Synchronizer.SynchronizerReconciler.BackupsToSync` | internal/controller/nonadminbackupsynchronizer_controller.go:95-133 | precisely the syncable backups whose namespace exists and whose NonAdminBackup does not |
| `Synchronizer.SynchronizerReconciler.Reconcile` | internal/controller/nonadminbackupsynchronizer_controller.go:135-158 | rebuilds missing backups, and stops early only when two share an origin |
| `Synchronizer.RebuiltBecause` | internal/controller/nonadminbackupsynchronizer_controller.go:67-158 | every object a pass rebuilds comes from a completed backup with the controllers' labels and its origin, whose namespace is there, in the default location or one of a user that is there; with its NACUUID as label, the user's name of the location and all other fields of the backup |
| `Synchronizer.PassTakesKeys` | internal/controller/nonadminbackupsynchronizer_controller.go:135-158 | a pass takes exactly the keys it creates off the missing ones |
| `Synchronizer.PassConverges` | internal/controller/nonadminbackupsynchronizer_controller.go:95-158 | a pass that finds anything leaves strictly fewer keys missing; with none missing it writes nothing |
| `Synchronizer.SyncConverges` | internal/controller/nonadminbackupsynchronizer_controller.go:95-158 | as many passes as keys were missing suffice, and later ones change nothing |
| `Synchronizer.MissingMayBeCreated` | internal/controller/nonadminbackupsynchronizer_controller.go:136-158 | every object created is one the protocol lets the synchronizer create |
| `Synchronizer.LocationRoundTrip` | internal/controller/nonadminbackupsynchronizer_controller.go:146-151 | the location comes back under the user's name; none and default are exchanged both ways |
| `Synchronizer.SyncRoundTrip` | internal/controller/nonadminbackup_controller.go:141-147 | a re-imported backup whose origin no other backup claims comes back with namespace, name, location and NACUUID, in phase Created, with no second Velero backup: by every synchronizer pass that brings it, as each one without error does, and one pass of the controller |
| `Synchronizer.EventualReturn` | internal/controller/nonadminbackupsynchronizer_controller.go:95-158 | it comes back within as many passes as keys were missing, in any order and however many stop half-way |
| `Synchronizer.SharedOriginMayReturnOther` | internal/controller/nonadminbackupsynchronizer_controller.go:135-158 | where another backup claims the origin a pass may rebuild the object from that one |
| `Synchronizer.CreatedBackupCanReturn` | internal/controller/nonadminbackup_controller.go:720-743 | what the controller creates satisfies the conditions of the round trip once Velero has its completed copy |
| `Queue.GetQueueInfo` | internal/common/function/function.go:479-523 | the loop counts the active objects created earlier |
| `Queue.PositionsEmbedOrder` | internal/common/function/function.go:503-520 | 1 to the number of active objects, and ordered exactly as they were created |
| `Queue.PositionsNeverRise` | internal/common/function/function.go:479-523 | along any run of completions, deletions and later-stamped creations a position never rises |
| `Queue.CompletionMovesUp` | internal/common/function/function.go:510-520 | a completion moves exactly the later objects up by one |
| `QueueRuns.QueueHandlerUpdate` | internal/handler/velerobackup_queue_handler.go:45-87 | enqueues precisely every other object with an active backup |
| `QueueRuns.CoherentKept` | internal/predicate/compositebackup_predicate.go:52-65 | every step of events, handlers and reconciles keeps a stored position current or a refresh on its way |
| `QueueRuns.DrainedPositionsAreCurrent` | internal/predicate/velerobackup_queue_predicate.go:38-61 | whenever the work is drained, each stored position of an active backup is the recomputed one, over all runs of creations, changes, completions, re-imports and deletions nobody is queued behind |
| `QueueRuns.UpdateEnqueuesExactly` | internal/predicate/compositebackup_predicate.go:52-65 | a delivered update enqueues, when it is a completion or bears the controllers' metadata, its own object and every other with an active backup, and nothing else |
| `QueueRuns.ChangeReachesItsObject` | internal/handler/velerobackup_handler.go:40-70 | every change or deletion of a backup the controllers wrote brings its own object to the queue |
| `QueueRuns.DeletionStrandsIff` | internal/handler/velerobackup_queue_handler.go:89-93 | a deletion leaves all stored positions current, before and after its event is handled, if and only if the backup was complete or nobody was queued behind it |
| `QueueRefinement.BackupStepIsQueueStep` | internal/controller/nonadminbackup_controller.go:632-812 | the step that finds or creates the Velero backup and records it is one reconcile of the queue model, and the positions of the model are those in the statuses of the store |
| `QueueRuns.DeliveryKeepsOne` | internal/handler/velerobackup_queue_handler.go:68-85 | a delivered completion reaches every object with an active backup |

## Left out

- Runs.OneDeleteRequestPerBackup: is about each moment, because over a whole run the code does write a second request once the first is taken away; Runs.RequestsBalance and Limits.FurtherRequestIff say exactly when.
- Runs.LocationSpecIsFrozen: needs current reads, and leaves out a location whose needed request the collector takes on the strength of an old list, because the code does not keep that one frozen: Races.CollectorRaceUnfreezes and Races.CollectorRaceBeforeServing are the runs, Limits.CollectorGuardExact the exact condition.
- Runs.LaterEditsNeverReachLocation: the same.
- Runs.NoOrphans: leaves out backups where Velero brings backups back, because these come without their origin until the synchronizer has rebuilt it.
- Nabsl.NabslReconciler.DeleteVeleroBSL: takes its list call as succeeding, because on failure the code goes on as if nothing had been found; Limits.FinalizerRemovalExact is the exact condition.
- Collector.CollectionKeepsInv: holds for collections during which nobody else writes; with other writers in between its deletions are permitted writes of a run, which Runs.LateCollectionIsPermitted and Runs.LateCollectionFindsNothing show for the time between its Get and its Delete; Races has the exceptions.
- QueueRuns.DrainedPositionsAreCurrent: excludes the deletion of an active backup with others queued behind it, because that is not fanned out; QueueRuns.DeletionStrandsIff shows that it has to. It also takes the list calls of the handler and of GetBackupQueueInfo as succeeding: on an error the code fans nothing out, or keeps the old position and goes on. QueueRefinement.BackupStepIsQueueStep ties its reconciles to undisturbed ones of the controller.
- Approval.PassesStabilise: leaves resource versions aside, because every approved pass sets the phase to New and back to Created; Approval.ThirdPassWritesIffApproved says when versions stay too.
- Nabsl.NabslReconciler.WriteLocation: takes `oadpcommon.UpdateBackupStorageLocation` as leaving the spec alone; that function is not part of this model. As for the frozen spec, see Runs.LocationSpecIsFrozen.
- Nabsl.NabslReconciler.BuildLocationFields: a location spec without object storage is built with an empty bucket, where the code would dereference nil.
- Nabsl.NabslReconciler.CreateVeleroBSL: a missing credential fails the step, where the code would dereference nil; validation excludes it unless the spec is edited within the pass.
- Nab.NabReconciler.CreateVeleroBackup: a location without NACUUID fails the step, where the code would dereference nil.
- Nar.NarReconciler.BuildAndCreate: a backup without NACUUID fails the step, where the code would dereference nil.
- Synchronizer.SyncRoundTrip: is about configurations that enforce no storage location on backups, because an enforced one overrides the one the user is given back.
- Nab.NabReconciler.CreateVeleroDeleteBackupRequest: the generated name of the request ends in a whole fresh UUID instead of five random characters, backup names are label values already, so GetValidName is the identity, and the label with the UID of the backup is dropped.
- Queue.GetQueueInfo: timestamps are natural numbers, with zero for the zero time.
- Messages, transition times and the order of conditions, log text, error formatting.
- The counters of DataUpload, PodVolumeBackup, PodVolumeRestore and DataDownload objects in the status, their handlers and predicates.
- The NonAdminDownloadRequest controller.
- The restore queue handler, which is never registered, so nothing is claimed about refreshing positions of restores.
- Velero's own work: it may complete, delete, hold, release and bring back its objects at any time; running backups is not modelled.
- Secret contents and credential formats, copied as opaque values.
- Manager setup, flags, access rules, the real client and its cache.
