/**
 The objects of the cluster: the three non-admin custom resources, the objects the
 controllers keep for them in the OADP namespace, and the labels and annotations that
 tie one to the other.
 */
module Objects {

  datatype Option<+T> = None | Some(value: T)

  // ---- Specs: one map per spec; an absent field is a Go zero value. ----

  datatype Field =
    | IncludedNamespaces | ExcludedNamespaces | IncludeClusterResources
    | IncludedClusterScopedResources | ExcludedClusterScopedResources
    | IncludedNamespaceScopedResources | ExcludedNamespaceScopedResources
    | ExcludedResources | StorageLocation | VolumeSnapshotLocations
    | ScheduleName | BackupName | NamespaceMapping
    | Default | Credential | BackupSyncPeriod | StorageType
    | OtherField(name: string)

  datatype Value =
    | Str(str: string)
    | Names(names: seq<string>)
    | Flag(flag: bool)
    | Num(num: int)
    | SecretKey(secret: string, key: string)
    | Bucket(bucket: string, prefix: string, caCert: string)
    | Other(id: int)

  type Fields = map<Field, Value>

  function StrOf(fields: Fields, f: Field): string {
    if f in fields && fields[f].Str? then fields[f].str else ""
  }

  function NamesOf(fields: Fields, f: Field): seq<string> {
    if f in fields && fields[f].Names? then fields[f].names else []
  }

  // ---- Custom resources ----

  datatype Kind = NAB | NAR | NABSL
  datatype Id = Id(kind: Kind, ns: string, name: string)

  datatype Phase = Unset | New | BackingOff | Created | Deleting

  datatype ConditionType =
    | Accepted | Queued | BeingDeleted
    | AdminApproved | SpecUpdateApproved | SecretSynced | BslSynced

  datatype Reason =
    | BackupAccepted | InvalidBackupSpec | VeleroBackupNotFound | BackupScheduled
    | RestoreAccepted | InvalidRestoreSpec | VeleroRestoreNotFound | RestoreScheduled
    | DeletionPending
    | BslSpecValidation | BslSpecUpdateRejected
    | BslSpecApprovalPending | BslSpecApproved | BslSpecRejected | BslSpecInvalid
    | SecretCreated | SecretUpdated | SecretSyncFailed
    | BslCreated | BslUpdated | BslSyncError

  datatype Message =
    | NoMessage
    | Restricted(field: Field)                 // the field may not be set this way
    | Enforced(field: Field)                   // differs from the administrator's value
    | Missing(field: Field)                    // the field must be set
    | Invalid(field: Field)                    // what the field refers to is not usable
    | SecretNotFound
    | SyncSourceMissing | BackupRemoved | RestoreRemoved
    | AcceptedForDeletion | DirectDeletion

  datatype Condition = Condition(status: bool, reason: Reason, message: Message)
  type Conditions = map<ConditionType, Condition>

  predicate IsTrue(conds: Conditions, t: ConditionType) {
    t in conds && conds[t].status
  }

  // uuid "" stands for an absent Velero reference or an empty NACUUID: the code treats both alike.
  datatype Status = Status(
    phase: Phase, conds: Conditions, uuid: string, queue: Option<nat>, mirror: Option<Body>, deletion: Option<int>)

  function WithCondition(st: Status, t: ConditionType, status: bool, reason: Reason, message: Message): Status {
    st.(conds := st.conds[t := Condition(status, reason, message)])
  }

  function WithoutCondition(st: Status, t: ConditionType): Status {
    st.(conds := st.conds - {t})
  }

  const EmptyStatus := Status(Unset, map[], "", None, None, None)

  datatype Spec = Spec(fields: Fields, deleteBackup: bool)

  // uid tells two objects that had the same name one after the other apart.
  datatype Cr = Cr(
    uid: nat, rv: nat, deleting: bool, finalizer: bool, sync: Option<string>,
    spec: Spec, status: Status)

  // ---- Objects in the OADP namespace ----

  datatype OwnedKind = BACKUP | RESTORE | BSL | SECRET | REQUEST | DELETION
  datatype Ref = Ref(kind: OwnedKind, name: string)

  datatype Decision = NoDecision | Pending | Approve | Reject | OtherDecision(text: string)
  datatype RequestPhase = NoPhase | PhasePending | PhaseApproved | PhaseRejected
  datatype Source = Source(uuid: string, id: Id, fields: Fields)

  datatype Body =
    | Backup(fields: Fields, created: nat, completed: bool, progress: int)
    | Restore(fields: Fields, created: nat, completed: bool, progress: int)
    | Location(fields: Fields, available: bool, health: int)
    | Credentials(data: int)
    | Request(decision: Decision, phase: RequestPhase, source: Option<Source>)
    | Deletion(backup: string, outcome: int)

  datatype LabelKey =
    | OadpLabel | ManagedByLabel | OriginUuid(kind: Kind) | BackupNameLabel | OtherLabel(key: string)
  datatype AnnotationKey =
    | OriginNamespace(kind: Kind) | OriginName(kind: Kind) | OtherAnnotation(key: string)
  type Labels = map<LabelKey, string>
  type Annotations = map<AnnotationKey, string>

  // terminating: deletion was requested but a Velero finalizer still holds the object.
  datatype Owned = Owned(
    labels: Labels, annotations: Annotations, rv: nat, held: bool, terminating: bool, body: Body)

  // ---- Metadata writers and checkers (internal/common/function/function.go) ----

  const OadpLabelValue := "True"
  const ManagedByLabelValue := "oadp-nac-controller"
  const DNS1123SubdomainMaxLength := 253

  function NonAdminLabels(): Labels {
    map[OadpLabel := OadpLabelValue, ManagedByLabel := ManagedByLabelValue]
  }

  function OwnerLabels(kind: Kind, uuid: string): Labels {
    NonAdminLabels()[OriginUuid(kind) := uuid]
  }

  function OwnerAnnotations(id: Id): Annotations {
    map[OriginNamespace(id.kind) := id.ns, OriginName(id.kind) := id.name]
  }

  predicate HasValue<K>(m: map<K, string>, key: K, value: string) {
    key in m && m[key] == value
  }

  predicate ValidLabel(value: string) {
    0 < |value| < DNS1123SubdomainMaxLength
  }

  predicate ValidValue<K>(m: map<K, string>, key: K) {
    key in m && ValidLabel(m[key])
  }

  /** The label selector used by the garbage collector and the synchronizer. */
  predicate Selected(o: Owned) {
    HasValue(o.labels, OadpLabel, OadpLabelValue) && HasValue(o.labels, ManagedByLabel, ManagedByLabelValue)
  }

  predicate CheckAnnotations(kind: Kind, o: Owned) {
    ValidValue(o.annotations, OriginNamespace(kind)) && ValidValue(o.annotations, OriginName(kind))
  }

  /** The restore checker bounds the length of the label only from below. */
  predicate CheckMetadata(kind: Kind, o: Owned) {
    && Selected(o)
    && (if kind == NAR then OriginUuid(NAR) in o.labels && 0 < |o.labels[OriginUuid(NAR)]|
        else ValidValue(o.labels, OriginUuid(kind)))
    && CheckAnnotations(kind, o)
  }

  function OriginOf(kind: Kind, o: Owned): Id
    requires OriginNamespace(kind) in o.annotations && OriginName(kind) in o.annotations
  {
    Id(kind, o.annotations[OriginNamespace(kind)], o.annotations[OriginName(kind)])
  }

  /** The origin, if the annotations name one. */
  function OriginOrElse(o: Owned): Id {
    if CheckAnnotations(NAB, o) then OriginOf(NAB, o) else Id(NAB, "", "")
  }

  predicate LabelledWith(kind: Kind, o: Owned, uuid: string) {
    HasValue(o.labels, OriginUuid(kind), uuid)
  }

  /** The metadata the controllers write passes the checkers exactly when the names fit the
      checkers' strict bound, and it leads back to the object it was written for. */
  lemma WrittenMetadataChecks(id: Id, uuid: string, o: Owned)
    requires o.labels == OwnerLabels(id.kind, uuid) && o.annotations == OwnerAnnotations(id)
    ensures Selected(o) && LabelledWith(id.kind, o, uuid) && OriginOf(id.kind, o) == id
    ensures CheckMetadata(id.kind, o) <==>
            && 0 < |uuid| && (id.kind == NAR || |uuid| < DNS1123SubdomainMaxLength)
            && 0 < |id.ns| < DNS1123SubdomainMaxLength
            && 0 < |id.name| < DNS1123SubdomainMaxLength
  {
    assert OriginNamespace(id.kind) != OriginName(id.kind);
  }
}
