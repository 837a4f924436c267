/**
 The cluster as one versioned store, the writes every actor can make to it, and the rule
 that says which write each actor may make in which state.
 */
module Cluster {
  import opened Objects
  import opened Specs
  import Naming

  /**
   fields:         every spec field in declaration order, as reflection walks the structs
   staleReads:     reads may return any earlier version of what they ask for
   raced:          the NACUUIDs whose requests the garbage collector may delete on the strength of
                   an old list, although that is no longer right when it deletes
   reimports:      Velero may bring back, from object storage, backups with the labels and
                   annotations of the controllers
   */
  datatype Config = Config(
    fields: seq<Field>,
    enforcedBackup: Fields, enforcedRestore: Fields, enforcedLocation: Fields,
    syncPeriod: int, defaultSyncPeriod: Option<int>,
    requireApproval: bool, staleReads: bool, raced: set<string>, reimports: bool)

  predicate ValidConfig(cfg: Config) {
    && Covers(cfg.fields, cfg.enforcedBackup)
    && Covers(cfg.fields, cfg.enforcedRestore)
    && Covers(cfg.fields, cfg.enforcedLocation)
  }

  datatype Store = Store(
    rv: nat, clock: nat, issued: map<string, Id>,   // issued: which object each NACUUID was made for
    crs: map<Id, Cr>, owned: map<Ref, Owned>,
    namespaces: set<string>, secrets: map<(string, string), int>)

  datatype Actor = User | Admin | Velero | Collector | Synchronizer | Worker(id: Id)

  datatype Op =
    | Create(id: Id, spec: Spec, sync: Option<string>)
    | Edit(id: Id, spec: Spec)
    | Delete(id: Id)
    | WriteStatus(id: Id, status: Status)
    | WriteFinalizer(id: Id, on: bool)
    | Put(ref: Ref, o: Owned)
    | Import(ref: Ref, o: Owned)
    | Remove(ref: Ref)
    | Release(ref: Ref)
    | SetSecret(key: (string, string), data: Option<int>)
    | SetNamespace(ns: string, exist: bool)
    | Tick

  datatype Step = Step(actor: Actor, op: Op)

  // ---- What each write does.  A write that changes nothing does not move a version. ----

  function DoCreate(s: Store, id: Id, spec: Spec, sync: Option<string>): Store {
    if id in s.crs then s
    else s.(rv := s.rv + 1, crs := s.crs[id := Cr(s.rv + 1, s.rv + 1, false, false, sync, spec, EmptyStatus)])
  }

  function DoEdit(s: Store, id: Id, spec: Spec): Store {
    if id !in s.crs || s.crs[id].spec == spec then s
    else s.(rv := s.rv + 1, crs := s.crs[id := s.crs[id].(spec := spec, rv := s.rv + 1)])
  }

  /** A finalizer turns deletion into a mark. */
  function DoDelete(s: Store, id: Id): Store {
    if id !in s.crs || s.crs[id].deleting then s
    else if s.crs[id].finalizer then
      s.(rv := s.rv + 1, crs := s.crs[id := s.crs[id].(deleting := true, rv := s.rv + 1)])
    else s.(rv := s.rv + 1, crs := s.crs - {id})
  }

  function DoWriteStatus(s: Store, id: Id, status: Status): Store {
    if id !in s.crs || s.crs[id].status == status then s
    else s.(rv := s.rv + 1,
            issued := if status.uuid == "" || status.uuid in s.issued then s.issued else s.issued[status.uuid := id],
            crs := s.crs[id := s.crs[id].(status := status, rv := s.rv + 1)])
  }

  /** Taking the finalizer off an object marked for deletion deletes it. */
  function DoWriteFinalizer(s: Store, id: Id, on: bool): Store {
    if id !in s.crs || s.crs[id].finalizer == on then s
    else if !on && s.crs[id].deleting then s.(rv := s.rv + 1, crs := s.crs - {id})
    else s.(rv := s.rv + 1, crs := s.crs[id := s.crs[id].(finalizer := on, rv := s.rv + 1)])
  }

  function DoPut(s: Store, ref: Ref, o: Owned): Store {
    if ref in s.owned && s.owned[ref] == o.(rv := s.owned[ref].rv) then s
    else s.(rv := s.rv + 1, owned := s.owned[ref := o.(rv := s.rv + 1)])
  }

  /** The name of an imported backup counts as given out, to the origin the backup names. */
  function DoImport(s: Store, ref: Ref, o: Owned): Store {
    if ref in s.owned then s
    else s.(rv := s.rv + 1, owned := s.owned[ref := o.(rv := s.rv + 1)],
            issued := if ref.name in s.issued then s.issued else s.issued[ref.name := OriginOrElse(o)])
  }

  function DoRemove(s: Store, ref: Ref): Store {
    if ref !in s.owned then s
    else if s.owned[ref].held then
      DoPut(s, ref, s.owned[ref].(terminating := true))
    else s.(owned := s.owned - {ref})
  }

  function Apply(s: Store, op: Op): Store {
    match op
    case Create(id, spec, sync) => DoCreate(s, id, spec, sync)
    case Edit(id, spec) => DoEdit(s, id, spec)
    case Delete(id) => DoDelete(s, id)
    case WriteStatus(id, status) => DoWriteStatus(s, id, status)
    case WriteFinalizer(id, on) => DoWriteFinalizer(s, id, on)
    case Put(ref, o) => DoPut(s, ref, o)
    case Import(ref, o) => DoImport(s, ref, o)
    case Remove(ref) => DoRemove(s, ref)
    case Release(ref) => s.(owned := s.owned - {ref})
    case SetSecret(key, data) =>
      s.(secrets := match data case Some(d) => s.secrets[key := d] case None => s.secrets - {key})
    case SetNamespace(ns, exist) => s.(namespaces := if exist then s.namespaces + {ns} else s.namespaces - {ns})
    case Tick => s.(clock := s.clock + 1)
  }

  // ---- Ownership ----

  function OwnerKind(k: OwnedKind): Kind {
    match k
    case BACKUP => NAB
    case DELETION => NAB
    case RESTORE => NAR
    case BSL => NABSL
    case SECRET => NABSL
    case REQUEST => NABSL
  }

  /** The kinds that may exist only while their owner holds its finalizer. */
  predicate Protected(k: OwnedKind) {
    k == BACKUP || k == RESTORE || k == BSL || k == SECRET
  }

  /** Velero's imports come without their owner. */
  predicate Guarded(imports: bool, k: OwnedKind) {
    Protected(k) && !(imports && k == BACKUP)
  }

  /** The object carries the label the controllers put on what they create. */
  predicate Claimed(ref: Ref, o: Owned) {
    OriginUuid(OwnerKind(ref.kind)) in o.labels
  }

  predicate KeepsMetadata(a: Owned, b: Owned) {
    a.labels == b.labels && a.annotations == b.annotations
  }

  /** id is present, holds the finalizer and carries this NACUUID. */
  predicate Holds(crs: map<Id, Cr>, id: Id, uuid: string) {
    id in crs && crs[id].finalizer && crs[id].status.uuid == uuid
  }

  /** id is present and not being deleted. */
  predicate Alive(crs: map<Id, Cr>, id: Id) {
    id in crs && !crs[id].deleting
  }

  /** The NACUUID was made for this object. */
  predicate IssuedTo(s: Store, id: Id, uuid: string) {
    uuid in s.issued && s.issued[uuid] == id
  }

  function SourceOf(owned: map<Ref, Owned>, uuid: string): Option<Source> {
    var ref := Ref(REQUEST, uuid);
    if ref in owned && owned[ref].body.Request? then owned[ref].body.source else None
  }

  /** The location spec is the one built from the spec frozen in the request. */
  predicate Frozen(cfg: Config, owned: map<Ref, Owned>, id: Id, uuid: string, fields: Fields) {
    var source := SourceOf(owned, uuid);
    source.Some? && fields == LocationFields(cfg.enforcedLocation, source.value.fields, id.ns, uuid)
  }

  predicate NameUnused(s: Store, uuid: string) {
    && uuid !in s.issued
    && (forall ref | ref in s.owned :: ref.name != uuid && !HasValue(s.owned[ref].labels, BackupNameLabel, uuid))
  }

  // ---- Which status may replace which ----

  predicate ShapeOk(kind: Kind, status: Status) {
    kind != NABSL && status.phase == Created ==> IsTrue(status.conds, Queued) && status.uuid != ""
  }

  predicate StatusFollows(kind: Kind, was: Status, now: Status) {
    && (was.uuid != "" ==> now.uuid == was.uuid)
    && (IsTrue(was.conds, Queued) ==> IsTrue(now.conds, Queued))
    && ShapeOk(kind, now)
  }

  // ---- Which write each actor may make ----

  /** A completed backup from which the synchronizer may rebuild this object. */
  predicate SyncSource(s: Store, id: Id, uuid: string) {
    exists ref | ref in s.owned ::
      var o := s.owned[ref];
      && ref.kind == BACKUP && o.body.Backup? && o.body.completed
      && CheckMetadata(NAB, o) && OriginOf(NAB, o) == id && o.labels[OriginUuid(NAB)] == uuid
  }

  /** A backup comes back with the metadata of its origin, under its old name or one nobody uses. */
  predicate MayImport(cfg: Config, s: Store, ref: Ref, o: Owned) {
    && cfg.reimports && ref.kind == BACKUP && ref !in s.owned && o.body.Backup? && ref.name != ""
    && Selected(o) && LabelledWith(NAB, o, ref.name) && CheckAnnotations(NAB, o)
    && (if ref.name in s.issued then s.issued[ref.name] == OriginOf(NAB, o) else NameUnused(s, ref.name))
  }

  /** A delete request asks for the backup its label says it is for. */
  predicate NamesItsBackup(o: Owned) {
    o.body.Deletion? && HasValue(o.labels, BackupNameLabel, o.body.backup)
  }

  predicate SameRequestBut(was: Body, now: Body) {
    was.Request? && now.Request? && now.source == was.source && now.phase == was.phase
  }

  predicate OutsiderMayPut(s: Store, actor: Actor, ref: Ref, o: Owned) {
    if ref in s.owned && Claimed(ref, s.owned[ref]) then
      && KeepsMetadata(s.owned[ref], o)
      && match ref.kind
         case BACKUP => actor == Velero
         case RESTORE => actor == Velero
         case BSL => actor == Velero && s.owned[ref].body.Location? && o.body.Location?
                     && o.body.fields == s.owned[ref].body.fields && !o.held
         case SECRET => false
         case REQUEST => actor == Admin && SameRequestBut(s.owned[ref].body, o.body) && !o.held
         case DELETION => actor == Velero && (NamesItsBackup(s.owned[ref]) ==> NamesItsBackup(o))
    else
      && !Claimed(ref, o) && ref.name !in s.issued
      && (BackupNameLabel in o.labels ==> o.labels[BackupNameLabel] !in s.issued)
  }

  predicate RequestMayBecome(cfg: Config, id: Id, uuid: string, was: Body, now: Body) {
    && was.Request? && now.Request?
    && (now.decision == was.decision || !cfg.requireApproval)
    && (now.source == was.source ||
        (was.source.None? && now.source.Some? && now.source.value.uuid == uuid && now.source.value.id == id))
  }

  predicate WorkerMayPut(cfg: Config, s: Store, id: Id, ref: Ref, o: Owned) {
    && OwnerKind(ref.kind) == id.kind
    && (if ref in s.owned then KeepsMetadata(s.owned[ref], o)
        else if ref.kind == DELETION then Claimed(ref, o) && BackupNameLabel in o.labels
        else o.labels == OwnerLabels(id.kind, ref.name) && o.annotations == OwnerAnnotations(id))
    && (ref.kind == DELETION ==> NamesItsBackup(o))
    && (!cfg.staleReads ==>
          match ref.kind
          case BACKUP => ref !in s.owned && Holds(s.crs, id, ref.name)
          case RESTORE => ref !in s.owned && Holds(s.crs, id, ref.name) && !IsTrue(s.crs[id].status.conds, Queued)
          case SECRET => Holds(s.crs, id, ref.name) && !o.held
          case BSL =>
            && Holds(s.crs, id, ref.name) && o.body.Location? && !o.held
            && (cfg.requireApproval && ref.name !in cfg.raced && !s.crs[id].deleting ==>
                  Frozen(cfg, s.owned, id, ref.name, o.body.fields))
          case REQUEST =>
            && IssuedTo(s, id, ref.name) && !o.held
            && (if ref in s.owned then RequestMayBecome(cfg, id, ref.name, s.owned[ref].body, o.body)
                else o.body.Request? && o.body.source.None?)
          case DELETION =>
            && ref !in s.owned && ref.name !in s.issued && Holds(s.crs, id, o.labels[BackupNameLabel])
            && (forall r | r in s.owned && r.kind == DELETION ::
                  !HasValue(s.owned[r].labels, BackupNameLabel, o.labels[BackupNameLabel])))
  }

  /** A location answers to this request, or is about to: its source is recorded, and the owner it
      names holds the finalizer under this NACUUID and is not being deleted. */
  predicate Needed(s: Store, uuid: string) {
    var source := SourceOf(s.owned, uuid);
    source.Some? && Holds(s.crs, source.value.id, uuid) && Alive(s.crs, source.value.id)
  }

  predicate CollectorMayRemove(cfg: Config, s: Store, ref: Ref) {
    ref.kind == REQUEST && cfg.requireApproval && ref.name !in cfg.raced ==> !Needed(s, ref.name)
  }

  predicate MayRemove(cfg: Config, s: Store, actor: Actor, ref: Ref) {
    match actor
    case Admin => ref.kind != REQUEST
    case Velero => ref.kind != REQUEST
    case Collector => CollectorMayRemove(cfg, s, ref)
    case Worker(id) =>
      && OwnerKind(ref.kind) == id.kind
      && (ref.kind == REQUEST && !cfg.staleReads ==>
            id in s.crs && s.crs[id].deleting && s.crs[id].status.uuid == ref.name)
    case _ => false
  }

  predicate Enabled(cfg: Config, s: Store, step: Step) {
    match step.op
    case Create(id, spec, sync) =>
      id !in s.crs && id.ns != "" && id.name != "" &&
      (if step.actor == Synchronizer then sync.Some? && SyncSource(s, id, sync.value)
       else step.actor == User && sync.None?)
    case Edit(id, spec) => step.actor == User
    case Delete(id) => step.actor == User || step.actor.Worker?
    case WriteStatus(id, status) =>
      && step.actor == Worker(id) && id in s.crs && StatusFollows(id.kind, s.crs[id].status, status)
      && (status.uuid != s.crs[id].status.uuid ==> NameUnused(s, status.uuid) || s.crs[id].sync == Some(status.uuid))
    case WriteFinalizer(id, on) =>
      && step.actor == Worker(id) && id in s.crs
      && (if on then s.crs[id].status.uuid != ""
          else
            && s.crs[id].deleting
            && (!cfg.staleReads ==>
                  forall ref | ref in s.owned && Guarded(cfg.reimports, ref.kind) && OwnerKind(ref.kind) == id.kind ::
                    ref.name != s.crs[id].status.uuid))
    case Put(ref, o) =>
      (match step.actor
       case Worker(id) => WorkerMayPut(cfg, s, id, ref, o)
       case Admin => OutsiderMayPut(s, Admin, ref, o)
       case Velero => OutsiderMayPut(s, Velero, ref, o)
       case _ => false)
    case Import(ref, o) => step.actor == Velero && MayImport(cfg, s, ref, o)
    case Remove(ref) => MayRemove(cfg, s, step.actor, ref)
    case Release(ref) => step.actor == Velero && ref.kind != REQUEST
    case SetSecret(_, _) => step.actor == User
    case SetNamespace(_, _) => step.actor == Admin
    case Tick => true
  }

  // ---- Stores compared ----

  predicate SameCr(s: Store, t: Store, id: Id) {
    (id in s.crs <==> id in t.crs) && (id in s.crs ==> s.crs[id] == t.crs[id])
  }

  /** Equal stores, resource versions aside. */
  ghost predicate SameButVersions(s: Store, t: Store) {
    && t.clock == s.clock && t.namespaces == s.namespaces && t.secrets == s.secrets && t.issued == s.issued
    && s.crs.Keys == t.crs.Keys && s.owned.Keys == t.owned.Keys
    && (forall i | i in s.crs :: t.crs[i].(rv := 0) == s.crs[i].(rv := 0))
    && (forall ref | ref in s.owned :: t.owned[ref].(rv := 0) == s.owned[ref].(rv := 0))
  }
}
