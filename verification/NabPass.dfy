/**
 What one undisturbed pass of the NonAdminBackup controller does to the store, step by step.
 */
module NabPass {
  import opened Objects
  import opened Specs
  import opened Cluster
  import opened ApiClient
  import opened Steps
  import opened Naming
  import Queue

  // ---- Creation ----

  predicate OnlyNamespace(namespaces: seq<string>, ns: string) {
    forall n | n in namespaces :: n == ns
  }

  /** The location a backup names must be one that was created and is available. */
  ghost predicate LocationUsable(s: Store, ns: string, name: string) {
    var id := Id(NABSL, ns, name);
    && id in s.crs && s.crs[id].status.phase == Created && s.crs[id].status.uuid != ""
    && var found := Found(s, BSL, s.crs[id].status.uuid);
       |found| == 1 && s.owned[Only(found)].body.Location? && s.owned[Only(found)].body.available
  }

  /** ValidateBackupSpec: the first objection, if any. */
  ghost function BackupError(cfg: Config, s: Store, ns: string, fields: Fields): Option<Message> {
    if IncludedNamespaces in fields && !OnlyNamespace(NamesOf(fields, IncludedNamespaces), ns) then
      Some(Restricted(IncludedNamespaces))
    else if ExcludedNamespaces in fields then Some(Restricted(ExcludedNamespaces))
    else if IncludeClusterResources in fields && fields[IncludeClusterResources] == Flag(true) then
      Some(Restricted(IncludeClusterResources))
    else if |NamesOf(fields, IncludedClusterScopedResources)| > 0 then Some(Restricted(IncludedClusterScopedResources))
    else if StrOf(fields, StorageLocation) != "" && !LocationUsable(s, ns, StrOf(fields, StorageLocation)) then
      Some(Invalid(StorageLocation))
    else if VolumeSnapshotLocations in fields then Some(Restricted(VolumeSnapshotLocations))
    else match Violation(cfg.fields, cfg.enforcedBackup, fields)
         case Some(f) => Some(Enforced(f))
         case None => None
  }

  /** The rules for a backup spec, each by itself. */
  ghost predicate FineBackupSpec(cfg: Config, s: Store, ns: string, fields: Fields) {
    && (IncludedNamespaces in fields ==> forall n | n in NamesOf(fields, IncludedNamespaces) :: n == ns)
    && ExcludedNamespaces !in fields && VolumeSnapshotLocations !in fields
    && (IncludeClusterResources in fields ==> fields[IncludeClusterResources] != Flag(true))
    && NamesOf(fields, IncludedClusterScopedResources) == []
    && (StrOf(fields, StorageLocation) == "" || LocationUsable(s, ns, StrOf(fields, StorageLocation)))
    && Agrees(cfg.enforcedBackup, fields)
  }

  /** A backup spec is valid exactly when it stays in its namespace, names a usable location or
      none, sets none of the fields users may not set, and agrees with the enforced spec. */
  lemma BackupSpecValidIff(cfg: Config, s: Store, ns: string, fields: Fields)
    requires ValidConfig(cfg)
    ensures BackupError(cfg, s, ns, fields).None? <==> FineBackupSpec(cfg, s, ns, fields)
  {
    hide LocationUsable;
    ViolationNoneMeansAgreement(cfg.fields, cfg.enforcedBackup, fields);
  }

  function Checked(st: Status, err: Option<Message>, accepted: Reason, invalid: Reason): Status {
    match err
    case Some(m) => WithCondition(st.(phase := BackingOff), Accepted, false, invalid, m)
    case None => WithCondition(st, Accepted, true, accepted, NoMessage)
  }

  ghost function ValidateStep(cfg: Config, s: Store, id: Id): (out: Out)
    requires id in s.crs
    ensures id in out.store.crs
  {
    var err := BackupError(cfg, s, id.ns, s.crs[id].spec.fields);
    Out(DoWriteStatus(s, id, Checked(s.crs[id].status, err, BackupAccepted, InvalidBackupSpec)),
        if err.Some? then Failed else Continue)
  }

  /** A backup brought back by the synchronizer takes its old NACUUID from its label. */
  function UuidStep(s: Store, id: Id, token: string): (out: Out)
    requires id in s.crs && |token| == UuidLength
    ensures id in out.store.crs && out.outcome == Continue
  {
    var c := s.crs[id];
    var uuid := if c.sync.Some? then c.sync.value else Generated(id.ns, id.name, token);
    Out(if c.status.uuid == "" then DoWriteStatus(s, id, c.status.(uuid := uuid)) else s, Continue)
  }

  predicate SyncLabelled(c: Cr) {
    c.sync.Some? && ValidLabel(c.sync.value)
  }

  /** Spec and status of the Velero object, as the status repeats them. */
  function MirrorOf(body: Body): Body {
    if body.Backup? then Backup(body.fields, 0, body.completed, body.progress)
    else if body.Restore? then Restore(map[], 0, body.completed, body.progress)
    else body
  }

  function Recorded(st: Status, position: Option<nat>, body: Body, reason: Reason): Status {
    var st1 := if position.Some? then st.(queue := position) else st;
    WithCondition(st1.(phase := Created), Queued, true, reason, NoMessage).(mirror := Some(MirrorOf(body)))
  }

  /** The status once the Velero backup is gone; the message tells the two cases apart. */
  function BackupLost(st: Status): Status {
    WithCondition(st.(phase := BackingOff), Accepted, false, VeleroBackupNotFound,
                  if IsTrue(st.conds, Queued) then BackupRemoved else SyncSourceMissing)
  }

  function BackupRecorded(s: Store, id: Id, o: Owned): (t: Store)
    requires id in s.crs
    ensures id in t.crs
  {
    DoWriteStatus(s, id, Recorded(s.crs[id].status, Some(Queue.Position(s.owned, BACKUP, o)), o.body, BackupScheduled))
  }

  /** The Velero name of the storage location the merged spec asks for; "" for the default one. */
  function VeleroLocation(cfg: Config, s: Store, ns: string, fields: Fields): Option<string> {
    var name := StrOf(Merged(cfg.enforcedBackup, fields), StorageLocation);
    var id := Id(NABSL, ns, name);
    if name == "" then Some("")
    else if id in s.crs && s.crs[id].status.uuid != "" then Some(s.crs[id].status.uuid)
    else None
  }

  ghost function BackupStep(cfg: Config, s: Store, id: Id): (out: Out)
    requires id in s.crs
    ensures id in out.store.crs
  {
    var c := s.crs[id];
    var uuid := c.status.uuid;
    var found := Found(s, BACKUP, uuid);
    if uuid == "" || |found| > 1 then Out(s, Failed)
    else if |found| == 1 then
      var o := s.owned[Only(found)];
      if !HasValue(o.annotations, OriginNamespace(NAB), id.ns) then Out(s, Failed)
      else Out(BackupRecorded(s, id, o), Continue)
    else if SyncLabelled(c) || c.status.phase == Created then Out(DoWriteStatus(s, id, BackupLost(c.status)), Failed)
    else
      var location := VeleroLocation(cfg, s, id.ns, c.spec.fields);
      var ref := Ref(BACKUP, uuid);
      if location.None? || ref in s.owned then Out(s, Failed)
      else
        var fields := BackupFields(cfg.enforcedBackup, c.spec.fields, id.ns, location.value);
        var s1 := DoPut(s, ref, Stamped(s, NewObject(id, uuid, Backup(fields, 0, false, 0))));
        Out(BackupRecorded(s1, id, s1.owned[ref]), Continue)
  }

  ghost function CreatePass(cfg: Config, s: Store, id: Id, token: string): (out: Out)
    requires id in s.crs && |token| == UuidLength
    ensures id in out.store.crs
  {
    var o2 := ValidateStep(cfg, InitStep(s, id).store, id);
    if o2.outcome != Continue then o2 else SyncPass(cfg, o2.store, id, token)
  }

  ghost function SyncPass(cfg: Config, s: Store, id: Id, token: string): (out: Out)
    requires id in s.crs && |token| == UuidLength
    ensures id in out.store.crs
  {
    var o3 := UuidStep(s, id, token);
    BackupStep(cfg, FinalizerStep(o3.store, id).store, id)
  }

  // ---- Deletion ----

  function Marked(st: Status, message: Message): Status {
    WithCondition(st.(phase := Deleting), BeingDeleted, true, DeletionPending, message)
  }

  /** The status is marked, then the object itself; the pass goes on only once it is marked. */
  function MarkStep(s: Store, id: Id): Out
    requires id in s.crs
  {
    var s1 := DoWriteStatus(s, id, Marked(s.crs[id].status, AcceptedForDeletion));
    if s.crs[id].deleting then Out(s1, Continue) else Out(DoDelete(s1, id), Requeue)
  }

  ghost function DeleteRequests(s: Store, uuid: string): set<Ref> {
    Matching(s, DELETION, BackupNameLabel, uuid)
  }

  function WithOutcome(st: Status, body: Body): Status {
    var now := if body.Deletion? then body.outcome else 0;
    if now == (if st.deletion.Some? then st.deletion.value else 0) then st else st.(deletion := Some(now))
  }

  function DeleteRequest(id: Id, uuid: string, backup: string): Owned {
    Owned(OwnerLabels(NAB, uuid)[BackupNameLabel := backup], OwnerAnnotations(id), 0, false, false, Deletion(backup, 0))
  }

  function DeleteRequestRef(backup: string, token: string): Ref {
    Ref(DELETION, backup + "-" + token)
  }

  /** createVeleroDeleteBackupRequest: asks Velero to delete the backup, or, when it is gone,
      lets the object go. */
  ghost function AskStep(s: Store, id: Id, token: string): Out
    requires id in s.crs
  {
    var c := s.crs[id];
    var uuid := c.status.uuid;
    var found, requests := Found(s, BACKUP, uuid), DeleteRequests(s, uuid);
    if !c.finalizer || uuid == "" then Out(s, Continue)
    else if |found| > 1 then Out(s, Failed)
    else if |found| == 0 then Out(DoWriteFinalizer(s, id, false), Continue)
    else if |requests| > 1 then Out(s, Failed)
    else if |requests| == 1 then
      Out(DoWriteStatus(s, id, WithOutcome(c.status, s.owned[Only(requests)].body)), Continue)
    else
      var ref, o := DeleteRequestRef(Only(found).name, token), DeleteRequest(id, uuid, Only(found).name);
      if ref in s.owned then Out(s, Failed)
      else Out(DoPut(s, ref, o), Continue)
  }

  /** deleteDeleteBackupRequestObjects */
  ghost function DropRequestStep(s: Store, id: Id): (out: Out)
    requires id in s.crs
    ensures id in out.store.crs
  {
    var uuid := s.crs[id].status.uuid;
    var requests := DeleteRequests(s, uuid);
    if uuid == "" then Out(s, Continue)
    else if |requests| > 1 then Out(s, Failed)
    else if |requests| == 1 then Out(DoRemove(s, Only(requests)), Continue)
    else Out(s, Continue)
  }

  /** deleteVeleroBackupObjects and deleteVeleroRestoreAndRemoveFinalizer: one pass deletes the
      Velero object, a later one lets the object go. */
  ghost function LetGoStep(s: Store, id: Id, kind: OwnedKind): Out
    requires id in s.crs
  {
    var uuid := s.crs[id].status.uuid;
    var found := Found(s, kind, uuid);
    if uuid == "" then Out(s, Continue)
    else if |found| > 1 then Out(s, Failed)
    else if |found| == 1 then Out(DoRemove(s, Only(found)), Continue)
    else Out(DoWriteFinalizer(s, id, false), Continue)
  }

  ghost function DirectPass(s: Store, id: Id): Out
    requires id in s.crs
  {
    var s1 := DoWriteStatus(s, id, Marked(s.crs[id].status, DirectDeletion));
    var o2 := DropRequestStep(s1, id);
    if o2.outcome != Continue then o2 else LetGoStep(o2.store, id, BACKUP)
  }
}
