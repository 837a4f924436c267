/**
 What every run of the system keeps.  A run interleaves single writes of all controllers,
 the collector, the synchronizer, Velero, administrators and users in any order, so a crash
 between two writes is nothing but a run that goes on with somebody else's writes.
 */
module Protocol {
  import opened Objects
  import opened Specs
  import opened Cluster

  type Crs = map<Id, Cr>
  type Objs = map<Ref, Owned>
  type Issued = map<string, Id>

  // ---- The invariant ----

  predicate CrOk(rv: nat, issued: Issued, id: Id, c: Cr) {
    && id.ns != "" && id.name != "" && c.rv <= rv && c.uid <= rv
    && (c.deleting ==> c.finalizer) && (c.sync.Some? ==> ValidLabel(c.sync.value))
    && (c.finalizer ==> c.status.uuid != "")
    && (c.status.uuid != "" ==> c.status.uuid in issued)
    && ShapeOk(id.kind, c.status)
  }

  ghost predicate CrsOk(rv: nat, issued: Issued, crs: Crs) {
    "" !in issued && forall id | id in crs :: CrOk(rv, issued, id, crs[id])
  }

  ghost predicate NamedByLabel(ref: Ref, o: Owned)
    requires Claimed(ref, o)
  {
    var k := OwnerKind(ref.kind);
    && o.labels[OriginUuid(k)] == ref.name && Selected(o)
    && OriginNamespace(k) in o.annotations && OriginName(k) in o.annotations
  }

  /** Claimed objects are named by their NACUUID label and say where they come from; delete requests
      name the backup they are for. */
  ghost predicate NamesOk(owned: Objs) {
    && (forall ref | ref in owned && ref.kind != DELETION && Claimed(ref, owned[ref]) :: NamedByLabel(ref, owned[ref]))
    && (forall ref | ref in owned && ref.kind == DELETION && Claimed(ref, owned[ref]) :: NamesItsBackup(owned[ref]))
  }

  /** A sync label names a NACUUID given out to the very object that carries it. */
  ghost predicate SyncLabelOk(imports: bool, issued: Issued, id: Id, c: Cr) {
    c.sync.Some? ==> imports && id.kind == NAB && c.sync.value in issued && issued[c.sync.value] == id
  }

  ghost predicate SyncLabelsOk(imports: bool, issued: Issued, crs: Crs) {
    forall id | id in crs :: SyncLabelOk(imports, issued, id, crs[id])
  }

  /** Every object carries a NACUUID made for it, so no two carry the same. */
  ghost predicate OwnUuids(issued: Issued, crs: Crs) {
    forall id | id in crs && crs[id].status.uuid != "" ::
      crs[id].status.uuid in issued && issued[crs[id].status.uuid] == id
  }

  ghost predicate NameIssued(issued: Issued, ref: Ref, o: Owned) {
    if ref.kind == DELETION then ref.name !in issued else Claimed(ref, o) <==> ref.name in issued
  }

  /** Nobody but the controllers uses a NACUUID as an object name. */
  ghost predicate IssuedNames(issued: Issued, owned: Objs) {
    forall ref | ref in owned :: NameIssued(issued, ref, owned[ref])
  }

  /** The object's origin is there, holds the finalizer and carries its name as NACUUID. */
  ghost predicate HasOwner(crs: Crs, ref: Ref, o: Owned) {
    var k := OwnerKind(ref.kind);
    && OriginNamespace(k) in o.annotations && OriginName(k) in o.annotations
    && Holds(crs, OriginOf(k, o), ref.name)
  }

  ghost predicate OwnersOk(imports: bool, crs: Crs, owned: Objs) {
    forall ref | ref in owned && Guarded(imports, ref.kind) && Claimed(ref, owned[ref]) :: HasOwner(crs, ref, owned[ref])
  }

  /** A backup's name was given out to the object its annotations lead to. */
  ghost predicate BackupOk(issued: Issued, ref: Ref, o: Owned) {
    && OriginNamespace(NAB) in o.annotations && OriginName(NAB) in o.annotations
    && ref.name in issued && issued[ref.name] == OriginOf(NAB, o)
  }

  ghost predicate BackupsOk(issued: Issued, owned: Objs) {
    forall ref | ref in owned && ref.kind == BACKUP && Claimed(ref, owned[ref]) :: BackupOk(issued, ref, owned[ref])
  }

  ghost predicate RequestOk(issued: Issued, ref: Ref, o: Owned) {
    && o.body.Request?
    && (o.body.source.Some? ==>
          && o.body.source.value.uuid == ref.name
          && ref.name in issued && o.body.source.value.id == issued[ref.name] && o.body.source.value.id.kind == NABSL)
  }

  /** A request's source record names the object its NACUUID was made for. */
  ghost predicate RequestsOk(issued: Issued, owned: Objs) {
    forall ref | ref in owned && ref.kind == REQUEST && Claimed(ref, owned[ref]) :: RequestOk(issued, ref, owned[ref])
  }

  predicate PlainObject(ref: Ref, o: Owned) {
    (ref.kind == BSL ==> o.body.Location?) && (OwnerKind(ref.kind) == NABSL ==> !o.held)
  }

  /** Locations, secrets and requests carry no finalizer of their own. */
  ghost predicate PlainOk(owned: Objs) {
    forall ref | ref in owned && Claimed(ref, owned[ref]) :: PlainObject(ref, owned[ref])
  }

  ghost predicate LocationFrozen(cfg: Config, crs: Crs, owned: Objs, ref: Ref, o: Owned) {
    && HasOwner(crs, ref, o) && OwnerKind(ref.kind) == NABSL && o.body.Location?
    && var id := OriginOf(NABSL, o);
       !crs[id].deleting ==> Frozen(cfg, owned, id, ref.name, o.body.fields)
  }

  /** A location whose owner is not being deleted has the spec frozen in its request. */
  ghost predicate FrozenOk(cfg: Config, crs: Crs, owned: Objs) {
    forall ref | ref in owned && ref.kind == BSL && Claimed(ref, owned[ref]) && ref.name !in cfg.raced ::
      LocationFrozen(cfg, crs, owned, ref, owned[ref])
  }

  ghost predicate ForBackup(owned: Objs, ref: Ref, uuid: string) {
    ref in owned && ref.kind == DELETION && HasValue(owned[ref].labels, BackupNameLabel, uuid)
  }

  /** At most one delete request per backup the controllers created, and it is theirs. */
  ghost predicate DeletionsOk(issued: Issued, owned: Objs) {
    && (forall uuid, a, b | uuid in issued && ForBackup(owned, a, uuid) && ForBackup(owned, b, uuid) :: a == b)
    && (forall uuid, a | uuid in issued && ForBackup(owned, a, uuid) :: Claimed(a, owned[a]))
  }

  ghost predicate OwnershipOk(imports: bool, s: Store) {
    && SyncLabelsOk(imports, s.issued, s.crs) && OwnUuids(s.issued, s.crs)
    && IssuedNames(s.issued, s.owned) && OwnersOk(imports, s.crs, s.owned) && RequestsOk(s.issued, s.owned)
    && BackupsOk(s.issued, s.owned) && PlainOk(s.owned) && DeletionsOk(s.issued, s.owned)
  }

  ghost predicate Extends(was: Issued, now: Issued) {
    forall uuid | uuid in was :: uuid in now && now[uuid] == was[uuid]
  }

  ghost predicate VersionsOk(rv: nat, owned: Objs) {
    forall ref | ref in owned :: owned[ref].rv <= rv
  }

  /** The rules under which the spec of the location of this NACUUID is frozen. */
  predicate Freezes(cfg: Config, uuid: string) {
    !cfg.staleReads && cfg.requireApproval && uuid !in cfg.raced
  }

  ghost predicate Inv(cfg: Config, s: Store) {
    && CrsOk(s.rv, s.issued, s.crs) && NamesOk(s.owned) && VersionsOk(s.rv, s.owned)
    && (!cfg.staleReads ==> OwnershipOk(cfg.reimports, s))
    && (!cfg.staleReads && cfg.requireApproval ==> FrozenOk(cfg, s.crs, s.owned))
  }

  // ---- Writes to custom resources ----

  /** Nobody loses a finalizer or a NACUUID under which a protected object exists. */
  ghost predicate KeepsHolders(imports: bool, was: Crs, now: Crs, owned: Objs) {
    forall id | id in was && was[id].finalizer ::
      || (id in now && now[id].finalizer && now[id].status.uuid == was[id].status.uuid
          && (was[id].deleting ==> now[id].deleting))
      || NothingProtected(imports, owned, id, was[id].status.uuid)
  }

  lemma OwnersSurvive(cfg: Config, was: Crs, now: Crs, owned: Objs)
    requires KeepsHolders(cfg.reimports, was, now, owned) && OwnersOk(cfg.reimports, was, owned)
    ensures OwnersOk(cfg.reimports, now, owned)
    ensures FrozenOk(cfg, was, owned) ==> FrozenOk(cfg, now, owned)
  {
    hide Frozen, Claimed;
    forall ref | ref in owned && Guarded(cfg.reimports, ref.kind) && Claimed(ref, owned[ref])
      ensures HasOwner(now, ref, owned[ref])
      ensures ref.kind == BSL && LocationFrozen(cfg, was, owned, ref, owned[ref]) ==>
              LocationFrozen(cfg, now, owned, ref, owned[ref])
    {
      assert HasOwner(was, ref, owned[ref]);
    }
  }

  /** Where nothing is orphaned the synchronizer has nothing to rebuild. */
  lemma SynchronizerFindsNothing(s: Store, id: Id, uuid: string)
    requires OwnersOk(false, s.crs, s.owned) && id !in s.crs
    ensures !SyncSource(s, id, uuid)
  {
    forall ref | ref in s.owned && ref.kind == BACKUP && CheckMetadata(NAB, s.owned[ref])
      ensures OriginOf(NAB, s.owned[ref]) != id
    {
      assert HasOwner(s.crs, ref, s.owned[ref]);
    }
  }

  lemma SyncLabelIsValid(s: Store, id: Id, uuid: string)
    requires SyncSource(s, id, uuid)
    ensures ValidLabel(uuid)
  {
  }

  /** The synchronizer rebuilds an object from a backup whose name was given out to it. */
  lemma SyncLabelIsIssued(s: Store, id: Id, uuid: string)
    requires SyncSource(s, id, uuid) && NamesOk(s.owned) && BackupsOk(s.issued, s.owned)
    ensures id.kind == NAB && uuid in s.issued && s.issued[uuid] == id
  {
    var ref :| ref in s.owned && ref.kind == BACKUP && CheckMetadata(NAB, s.owned[ref])
               && OriginOf(NAB, s.owned[ref]) == id && s.owned[ref].labels[OriginUuid(NAB)] == uuid;
    var o := s.owned[ref];
    assert CheckMetadata(NAB, o) && OriginUuid(NAB) in o.labels && OwnerKind(ref.kind) == NAB;
    assert Claimed(ref, s.owned[ref]);
    assert NamedByLabel(ref, s.owned[ref]) && BackupOk(s.issued, ref, s.owned[ref]);
  }

  lemma CreateKeepsSyncLabels(cfg: Config, s: Store, actor: Actor, id: Id, spec: Spec, sync: Option<string>)
    requires Inv(cfg, s) && !cfg.staleReads && Enabled(cfg, s, Step(actor, Create(id, spec, sync)))
    ensures var t := DoCreate(s, id, spec, sync); SyncLabelsOk(cfg.reimports, t.issued, t.crs)
  {
    hide IssuedNames, RequestsOk, FrozenOk, DeletionsOk, PlainOk, SyncSource, CrsOk, OwnUuids, VersionsOk, OwnersOk,
         NamesOk, BackupsOk;
    if sync.Some? {
      if cfg.reimports {
        SyncLabelIsIssued(s, id, sync.value);
      } else {
        SynchronizerFindsNothing(s, id, sync.value);
      }
    }
    var t := DoCreate(s, id, spec, sync);
    forall i | i in t.crs ensures SyncLabelOk(cfg.reimports, t.issued, i, t.crs[i]) {
      assert i in s.crs ==> SyncLabelOk(cfg.reimports, s.issued, i, s.crs[i]);
    }
  }

  lemma CreateKeepsInv(cfg: Config, s: Store, actor: Actor, id: Id, spec: Spec, sync: Option<string>)
    requires Inv(cfg, s) && Enabled(cfg, s, Step(actor, Create(id, spec, sync)))
    ensures Inv(cfg, DoCreate(s, id, spec, sync))
  {
    hide NamesOk, IssuedNames, BackupsOk, OwnersOk, RequestsOk, FrozenOk, DeletionsOk, PlainOk, SyncSource, SyncLabelsOk;
    var t := DoCreate(s, id, spec, sync);
    if sync.Some? {
      SyncLabelIsValid(s, id, sync.value);
    }
    assert CrsOk(t.rv, t.issued, t.crs);
    if !cfg.staleReads {
      CreateKeepsSyncLabels(cfg, s, actor, id, spec, sync);
      OwnersSurvive(cfg, s.crs, t.crs, s.owned);
    }
  }

  ghost predicate NothingProtected(imports: bool, owned: Objs, id: Id, uuid: string) {
    forall ref | ref in owned && Guarded(imports, ref.kind) && OwnerKind(ref.kind) == id.kind :: ref.name != uuid
  }

  /** One object changes and keeps what others rely on. */
  lemma ChangeKeepsInv(cfg: Config, s: Store, t: Store, id: Id, c: Cr)
    requires Inv(cfg, s) && id in s.crs
    requires t == s.(rv := s.rv + 1, crs := s.crs[id := c])
    requires CrOk(t.rv, t.issued, id, c) && c.status.uuid == s.crs[id].status.uuid && c.sync == s.crs[id].sync
    requires s.crs[id].finalizer ==> c.finalizer && (s.crs[id].deleting ==> c.deleting)
    ensures Inv(cfg, t)
  {
    hide NamesOk, IssuedNames, BackupsOk, OwnersOk, RequestsOk, FrozenOk, DeletionsOk, PlainOk, ShapeOk;
    forall i | i in t.crs ensures CrOk(t.rv, t.issued, i, t.crs[i]) {
      assert i != id ==> CrOk(s.rv, s.issued, i, s.crs[i]);
    }
    if !cfg.staleReads {
      OwnersSurvive(cfg, s.crs, t.crs, s.owned);
    }
  }

  /** One object goes that nothing depends on. */
  lemma DisappearanceKeepsInv(cfg: Config, s: Store, t: Store, id: Id)
    requires Inv(cfg, s) && id in s.crs
    requires t == s.(rv := s.rv + 1, crs := s.crs - {id})
    requires !cfg.staleReads && s.crs[id].finalizer ==> NothingProtected(cfg.reimports, s.owned, id, s.crs[id].status.uuid)
    ensures Inv(cfg, t)
  {
    hide NamesOk, IssuedNames, BackupsOk, OwnersOk, RequestsOk, FrozenOk, DeletionsOk, PlainOk, ShapeOk;
    forall i | i in t.crs ensures CrOk(t.rv, t.issued, i, t.crs[i]) {
      assert CrOk(s.rv, s.issued, i, s.crs[i]);
    }
    if !cfg.staleReads {
      OwnersSurvive(cfg, s.crs, t.crs, s.owned);
    }
  }

  lemma EditKeepsInv(cfg: Config, s: Store, id: Id, spec: Spec)
    requires Inv(cfg, s)
    ensures Inv(cfg, DoEdit(s, id, spec))
  {
    hide NamesOk, OwnershipOk, FrozenOk, ShapeOk;
    if DoEdit(s, id, spec) != s {
      assert CrOk(s.rv, s.issued, id, s.crs[id]);
      ChangeKeepsInv(cfg, s, DoEdit(s, id, spec), id, s.crs[id].(spec := spec, rv := s.rv + 1));
    }
  }

  lemma DeleteKeepsInv(cfg: Config, s: Store, id: Id)
    requires Inv(cfg, s)
    ensures Inv(cfg, DoDelete(s, id))
  {
    hide NamesOk, OwnershipOk, FrozenOk, ShapeOk;
    if DoDelete(s, id) != s {
      assert CrOk(s.rv, s.issued, id, s.crs[id]);
      if s.crs[id].finalizer {
        ChangeKeepsInv(cfg, s, DoDelete(s, id), id, s.crs[id].(deleting := true, rv := s.rv + 1));
      } else {
        DisappearanceKeepsInv(cfg, s, DoDelete(s, id), id);
      }
    }
  }

  lemma WriteFinalizerKeepsInv(cfg: Config, s: Store, id: Id, on: bool)
    requires Inv(cfg, s) && Enabled(cfg, s, Step(Worker(id), WriteFinalizer(id, on)))
    ensures Inv(cfg, DoWriteFinalizer(s, id, on))
  {
    hide NamesOk, OwnershipOk, FrozenOk, ShapeOk;
    if DoWriteFinalizer(s, id, on) != s {
      assert CrOk(s.rv, s.issued, id, s.crs[id]);
      if on {
        ChangeKeepsInv(cfg, s, DoWriteFinalizer(s, id, on), id, s.crs[id].(finalizer := on, rv := s.rv + 1));
      } else {
        DisappearanceKeepsInv(cfg, s, DoWriteFinalizer(s, id, on), id);
      }
    }
  }

  lemma FreshNameKeepsNames(s: Store, id: Id, uuid: string)
    requires IssuedNames(s.issued, s.owned) && DeletionsOk(s.issued, s.owned) && RequestsOk(s.issued, s.owned)
    requires BackupsOk(s.issued, s.owned) && NameUnused(s, uuid)
    ensures var now := s.issued[uuid := id];
            && IssuedNames(now, s.owned) && DeletionsOk(now, s.owned) && RequestsOk(now, s.owned)
            && BackupsOk(now, s.owned)
    ensures uuid !in s.issued
  {
    var now := s.issued[uuid := id];
    forall ref | ref in s.owned
      ensures NameIssued(now, ref, s.owned[ref])
      ensures ref.kind == REQUEST && Claimed(ref, s.owned[ref]) ==> RequestOk(now, ref, s.owned[ref])
      ensures ref.kind == BACKUP && Claimed(ref, s.owned[ref]) ==> BackupOk(now, ref, s.owned[ref])
    {
      assert NameIssued(s.issued, ref, s.owned[ref]);
      assert ref.kind == BACKUP && Claimed(ref, s.owned[ref]) ==> BackupOk(s.issued, ref, s.owned[ref]);
      assert ref.kind == REQUEST && Claimed(ref, s.owned[ref]) ==> RequestOk(s.issued, ref, s.owned[ref]);
    }
  }

  lemma WriteStatusKeepsInv(cfg: Config, s: Store, id: Id, status: Status)
    requires Inv(cfg, s) && Enabled(cfg, s, Step(Worker(id), WriteStatus(id, status)))
    ensures Inv(cfg, DoWriteStatus(s, id, status))
  {
    hide NamesOk, OwnershipOk, FrozenOk, ShapeOk;
    var t := DoWriteStatus(s, id, status);
    if t != s {
      assert CrOk(s.rv, s.issued, id, s.crs[id]);
      if status.uuid == s.crs[id].status.uuid {
        assert t.issued == s.issued;
        ChangeKeepsInv(cfg, s, t, id, s.crs[id].(status := status, rv := s.rv + 1));
      } else {
        NewUuidKeepsInv(cfg, s, id, status);
      }
    }
  }

  lemma NewUuidKeepsInv(cfg: Config, s: Store, id: Id, status: Status)
    requires Inv(cfg, s) && Enabled(cfg, s, Step(Worker(id), WriteStatus(id, status)))
    requires status.uuid != s.crs[id].status.uuid
    ensures Inv(cfg, DoWriteStatus(s, id, status))
  {
    hide NamesOk, IssuedNames, BackupsOk, OwnersOk, RequestsOk, FrozenOk, DeletionsOk, PlainOk, ShapeOk, NameUnused,
         SyncLabelsOk, OwnUuids, IsTrue;
    var t := DoWriteStatus(s, id, status);
    NewUuidKeepsCrs(cfg, s, id, status);
    if !cfg.staleReads {
      NewUuidIsMine(cfg, s, id, status);
      if status.uuid !in s.issued {
        FreshNameKeepsNames(s, id, status.uuid);
      }
      OwnersSurvive(cfg, s.crs, t.crs, s.owned);
    }
  }

  lemma NewUuidKeepsCrs(cfg: Config, s: Store, id: Id, status: Status)
    requires Inv(cfg, s) && Enabled(cfg, s, Step(Worker(id), WriteStatus(id, status)))
    ensures var t := DoWriteStatus(s, id, status); CrsOk(t.rv, t.issued, t.crs)
  {
    hide NamesOk, OwnershipOk, FrozenOk, VersionsOk, ShapeOk, NameUnused, IsTrue;
    var t := DoWriteStatus(s, id, status);
    forall i | i in t.crs ensures CrOk(t.rv, t.issued, i, t.crs[i]) {
      assert CrOk(s.rv, s.issued, i, s.crs[i]);
    }
  }

  /** A NACUUID about to be written is unused, or was given out to this very object. */
  lemma NewUuidIsMine(cfg: Config, s: Store, id: Id, status: Status)
    requires Inv(cfg, s) && !cfg.staleReads && Enabled(cfg, s, Step(Worker(id), WriteStatus(id, status)))
    requires status.uuid != s.crs[id].status.uuid
    ensures var t := DoWriteStatus(s, id, status);
            && (status.uuid !in s.issued ==> NameUnused(s, status.uuid))
            && SyncLabelsOk(cfg.reimports, t.issued, t.crs) && OwnUuids(t.issued, t.crs)
  {
    hide NamesOk, IssuedNames, BackupsOk, OwnersOk, RequestsOk, FrozenOk, DeletionsOk, PlainOk, ShapeOk, NameUnused;
    var t := DoWriteStatus(s, id, status);
    UnusedIsNotIssued(s, status.uuid);
    assert CrOk(s.rv, s.issued, id, s.crs[id]);
    assert SyncLabelOk(cfg.reimports, s.issued, id, s.crs[id]);
    forall i | i in t.crs ensures SyncLabelOk(cfg.reimports, t.issued, i, t.crs[i]) {
      assert SyncLabelOk(cfg.reimports, s.issued, i, s.crs[i]);
    }
  }

  lemma UnusedIsNotIssued(s: Store, uuid: string)
    ensures NameUnused(s, uuid) ==> uuid !in s.issued
  {
  }

  lemma HolderIsIssuedTo(cfg: Config, s: Store, id: Id, uuid: string)
    requires Inv(cfg, s) && !cfg.staleReads && Holds(s.crs, id, uuid)
    ensures IssuedTo(s, id, uuid) && uuid != ""
  {
    hide NamesOk, IssuedNames, BackupsOk, OwnersOk, RequestsOk, PlainOk, DeletionsOk, FrozenOk, VersionsOk, ShapeOk;
    assert CrOk(s.rv, s.issued, id, s.crs[id]);
  }

  lemma CarrierIsIssuedTo(cfg: Config, s: Store, id: Id)
    requires Inv(cfg, s) && !cfg.staleReads && id in s.crs && s.crs[id].status.uuid != ""
    ensures IssuedTo(s, id, s.crs[id].status.uuid)
  {
    hide NamesOk, IssuedNames, BackupsOk, OwnersOk, RequestsOk, PlainOk, DeletionsOk, FrozenOk, VersionsOk, CrsOk;
  }

  // ---- Writes to objects in the OADP namespace ----

  /** The frozen specs survive a write that touches no other location and keeps the sources. */
  lemma FrozenSurvives(cfg: Config, crs: Crs, was: Objs, now: Objs, ref: Ref)
    requires FrozenOk(cfg, crs, was)
    requires forall r | r in now && r != ref :: r in was && was[r] == now[r]
    requires ref in now && ref.kind == BSL && Claimed(ref, now[ref]) && ref.name !in cfg.raced ==>
               LocationFrozen(cfg, crs, now, ref, now[ref])
    requires forall r | r in was && r.kind == BSL && Claimed(r, was[r]) && r.name !in cfg.raced
                        && HasOwner(crs, r, was[r]) && !crs[OriginOf(NABSL, was[r])].deleting ::
               SourceOf(was, r.name).Some? ==> SourceOf(now, r.name) == SourceOf(was, r.name)
    ensures FrozenOk(cfg, crs, now)
  {
    hide LocationFields, Claimed;
    forall r | r in now && r.kind == BSL && Claimed(r, now[r]) && r.name !in cfg.raced
      ensures LocationFrozen(cfg, crs, now, r, now[r])
    {
      if r != ref {
        assert LocationFrozen(cfg, crs, was, r, was[r]);
      }
    }
  }

  lemma WorkerPutKeepsOwnership(cfg: Config, s: Store, id: Id, ref: Ref, o: Owned)
    requires Inv(cfg, s) && !cfg.staleReads && WorkerMayPut(cfg, s, id, ref, o)
    ensures OwnershipOk(cfg.reimports, DoPut(s, ref, o))
  {
    hide CrsOk, SyncLabelsOk, OwnUuids, FrozenOk, Frozen, NamesOk, DeletionsOk, ForBackup, VersionsOk;
    var t := DoPut(s, ref, o);
    if t != s {
      forall r | r in t.owned
        ensures NameIssued(t.issued, r, t.owned[r])
        ensures Guarded(cfg.reimports, r.kind) && Claimed(r, t.owned[r]) ==> HasOwner(t.crs, r, t.owned[r])
        ensures r.kind == BACKUP && Claimed(r, t.owned[r]) ==> BackupOk(t.issued, r, t.owned[r])
        ensures r.kind == REQUEST && Claimed(r, t.owned[r]) ==> RequestOk(t.issued, r, t.owned[r])
        ensures Claimed(r, t.owned[r]) ==> PlainObject(r, t.owned[r])
      {
        assert r in s.owned ==> NameIssued(s.issued, r, s.owned[r]);
        assert r in s.owned && Guarded(cfg.reimports, r.kind) && Claimed(r, s.owned[r]) ==> HasOwner(s.crs, r, s.owned[r]);
        assert r in s.owned && r.kind == BACKUP && Claimed(r, s.owned[r]) ==> BackupOk(s.issued, r, s.owned[r]);
        HolderNameIssued(cfg, s, id, ref.name);
      }
      WorkerPutKeepsDeletions(cfg, s, id, ref, o);
    }
  }

  lemma WorkerPutKeepsDeletions(cfg: Config, s: Store, id: Id, ref: Ref, o: Owned)
    requires DeletionsOk(s.issued, s.owned) && !cfg.staleReads && WorkerMayPut(cfg, s, id, ref, o)
    ensures var t := DoPut(s, ref, o); DeletionsOk(t.issued, t.owned)
  {
    hide Frozen, RequestMayBecome, LocationFields;
    var t := DoPut(s, ref, o);
    forall uuid, a, b | uuid in t.issued && ForBackup(t.owned, a, uuid) && ForBackup(t.owned, b, uuid)
      ensures a == b
    {
      assert a != ref ==> ForBackup(s.owned, a, uuid);
      assert b != ref ==> ForBackup(s.owned, b, uuid);
    }
  }

  lemma HolderNameIssued(cfg: Config, s: Store, id: Id, uuid: string)
    requires Inv(cfg, s)
    ensures Holds(s.crs, id, uuid) ==> uuid in s.issued && (!cfg.staleReads ==> s.issued[uuid] == id)
  {
    hide NamesOk, IssuedNames, BackupsOk, OwnersOk, RequestsOk, PlainOk, DeletionsOk, FrozenOk, VersionsOk, ShapeOk;
    if Holds(s.crs, id, uuid) {
      assert CrOk(s.rv, s.issued, id, s.crs[id]);
    }
  }

  lemma WorkerPutKeepsInv(cfg: Config, s: Store, id: Id, ref: Ref, o: Owned)
    requires Inv(cfg, s) && WorkerMayPut(cfg, s, id, ref, o)
    ensures Inv(cfg, DoPut(s, ref, o))
  {
    hide IssuedNames, BackupsOk, OwnersOk, RequestsOk, DeletionsOk, PlainOk, SyncLabelsOk, OwnUuids, FrozenOk, LocationFields,
         RequestMayBecome, ShapeOk, NamesOk, WorkerMayPut;
    var t := DoPut(s, ref, o);
    WorkerPutKeepsNames(cfg, s, id, ref, o);
    assert CrsOk(t.rv, t.issued, t.crs);
    if !cfg.staleReads {
      WorkerPutKeepsOwnership(cfg, s, id, ref, o);
      if cfg.requireApproval && t != s {
        WorkerPutKeepsFrozen(cfg, s, id, ref, o);
      }
    }
  }

  lemma WorkerPutKeepsNames(cfg: Config, s: Store, id: Id, ref: Ref, o: Owned)
    requires NamesOk(s.owned) && WorkerMayPut(cfg, s, id, ref, o)
    ensures NamesOk(DoPut(s, ref, o).owned)
  {
    hide Frozen, RequestMayBecome, LocationFields, Holds;
  }

  lemma WorkerPutKeepsFrozen(cfg: Config, s: Store, id: Id, ref: Ref, o: Owned)
    requires !cfg.staleReads && cfg.requireApproval && FrozenOk(cfg, s.crs, s.owned) && OwnUuids(s.issued, s.crs) && CrsOk(s.rv, s.issued, s.crs)
    requires WorkerMayPut(cfg, s, id, ref, o) && DoPut(s, ref, o) != s
    requires OwnersOk(cfg.reimports, s.crs, DoPut(s, ref, o).owned)
    ensures FrozenOk(cfg, s.crs, DoPut(s, ref, o).owned)
  {
    hide LocationFields;
    var t := DoPut(s, ref, o);
    forall uuid | SourceOf(s.owned, uuid).Some? ensures SourceOf(t.owned, uuid) == SourceOf(s.owned, uuid) {}
    if ref.kind == BSL && Claimed(ref, o) && ref.name !in cfg.raced {
      assert HasOwner(s.crs, ref, t.owned[ref]);
      assert CrOk(s.rv, s.issued, id, s.crs[id]);
      assert OriginOf(NABSL, o) == id;
    }
    FrozenSurvives(cfg, s.crs, s.owned, t.owned, ref);
  }

  lemma OutsiderPutKeepsOwnership(cfg: Config, s: Store, actor: Actor, ref: Ref, o: Owned)
    requires OwnershipOk(cfg.reimports, s) && OutsiderMayPut(s, actor, ref, o)
    ensures OwnershipOk(cfg.reimports, DoPut(s, ref, o))
  {
    hide SyncLabelsOk, OwnUuids, DeletionsOk, ForBackup;
    var t := DoPut(s, ref, o);
    if t != s {
      forall r | r in t.owned
        ensures NameIssued(t.issued, r, t.owned[r])
        ensures Guarded(cfg.reimports, r.kind) && Claimed(r, t.owned[r]) ==> HasOwner(t.crs, r, t.owned[r])
        ensures r.kind == BACKUP && Claimed(r, t.owned[r]) ==> BackupOk(t.issued, r, t.owned[r])
        ensures r.kind == REQUEST && Claimed(r, t.owned[r]) ==> RequestOk(t.issued, r, t.owned[r])
        ensures Claimed(r, t.owned[r]) ==> PlainObject(r, t.owned[r])
      {
        assert r in s.owned ==> NameIssued(s.issued, r, s.owned[r]);
        assert r in s.owned && Claimed(r, s.owned[r]) ==> PlainObject(r, s.owned[r]);
      }
      OutsiderPutKeepsDeletions(s, actor, ref, o);
    }
  }

  lemma OutsiderPutKeepsDeletions(s: Store, actor: Actor, ref: Ref, o: Owned)
    requires DeletionsOk(s.issued, s.owned) && OutsiderMayPut(s, actor, ref, o)
    ensures var t := DoPut(s, ref, o); DeletionsOk(t.issued, t.owned)
  {
    var t := DoPut(s, ref, o);
    forall uuid, a | uuid in t.issued && ForBackup(t.owned, a, uuid) ensures ForBackup(s.owned, a, uuid) {}
  }

  lemma OutsiderPutKeepsInv(cfg: Config, s: Store, actor: Actor, ref: Ref, o: Owned)
    requires Inv(cfg, s) && OutsiderMayPut(s, actor, ref, o)
    ensures Inv(cfg, DoPut(s, ref, o))
  {
    hide OwnershipOk, FrozenOk, LocationFields;
    var t := DoPut(s, ref, o);
    assert CrsOk(t.rv, t.issued, t.crs);
    if !cfg.staleReads && t != s {
      OutsiderPutKeepsOwnership(cfg, s, actor, ref, o);
      if cfg.requireApproval {
        OutsiderPutKeepsFrozen(cfg, s, actor, ref, o);
      }
    }
  }

  lemma OutsiderPutKeepsFrozen(cfg: Config, s: Store, actor: Actor, ref: Ref, o: Owned)
    requires FrozenOk(cfg, s.crs, s.owned) && OwnershipOk(cfg.reimports, s)
    requires OutsiderMayPut(s, actor, ref, o) && DoPut(s, ref, o) != s
    ensures FrozenOk(cfg, s.crs, DoPut(s, ref, o).owned)
  {
    hide LocationFields;
    var t := DoPut(s, ref, o);
    forall r | r in s.owned && r.kind == BSL && Claimed(r, s.owned[r])
      ensures SourceOf(t.owned, r.name) == SourceOf(s.owned, r.name)
    {
      assert NameIssued(s.issued, r, s.owned[r]);
      assert ref in s.owned ==> NameIssued(s.issued, ref, s.owned[ref]);
    }
    if ref.kind == BSL && Claimed(ref, o) && ref.name !in cfg.raced {
      assert LocationFrozen(cfg, s.crs, s.owned, ref, s.owned[ref]);
    }
    FrozenSurvives(cfg, s.crs, s.owned, t.owned, ref);
  }

  /** Taking an object away hurts nothing but the requests that locations lean on. */
  lemma LosingObjectKeepsOwnership(cfg: Config, s: Store, t: Store)
    requires OwnershipOk(cfg.reimports, s) && t.crs == s.crs && t.issued == s.issued
    requires forall r | r in t.owned :: r in s.owned && KeepsMetadata(s.owned[r], t.owned[r])
                                        && s.owned[r].body == t.owned[r].body && s.owned[r].held == t.owned[r].held
    ensures OwnershipOk(cfg.reimports, t)
  {
    forall r | r in t.owned
      ensures NameIssued(t.issued, r, t.owned[r])
      ensures Guarded(cfg.reimports, r.kind) && Claimed(r, t.owned[r]) ==> HasOwner(t.crs, r, t.owned[r])
      ensures r.kind == BACKUP && Claimed(r, t.owned[r]) ==> BackupOk(t.issued, r, t.owned[r])
      ensures r.kind == REQUEST && Claimed(r, t.owned[r]) ==> RequestOk(t.issued, r, t.owned[r])
      ensures Claimed(r, t.owned[r]) ==> PlainObject(r, t.owned[r])
    {
      assert NameIssued(s.issued, r, s.owned[r]);
      assert Guarded(cfg.reimports, r.kind) && Claimed(r, s.owned[r]) ==> HasOwner(s.crs, r, s.owned[r]);
      assert r.kind == BACKUP && Claimed(r, s.owned[r]) ==> BackupOk(s.issued, r, s.owned[r]);
    }
    assert DeletionsOk(t.issued, t.owned) by {
      forall uuid, a, b | uuid in t.issued && ForBackup(t.owned, a, uuid) && ForBackup(t.owned, b, uuid)
        ensures a == b
      {
        assert ForBackup(s.owned, a, uuid) && ForBackup(s.owned, b, uuid);
      }
    }
  }

  lemma LosingObjectKeepsFrozen(cfg: Config, crs: Crs, was: Objs, now: Objs)
    requires FrozenOk(cfg, crs, was)
    requires forall r | r in now :: r in was && KeepsMetadata(was[r], now[r]) && was[r].body == now[r].body
    requires forall r | r in was && r.kind == BSL && Claimed(r, was[r]) && r.name !in cfg.raced
                        && HasOwner(crs, r, was[r]) && !crs[OriginOf(NABSL, was[r])].deleting ::
               SourceOf(now, r.name) == SourceOf(was, r.name)
    ensures FrozenOk(cfg, crs, now)
  {
    hide LocationFields;
    forall r | r in now && r.kind == BSL && Claimed(r, now[r]) && r.name !in cfg.raced
      ensures LocationFrozen(cfg, crs, now, r, now[r])
    {
      assert LocationFrozen(cfg, crs, was, r, was[r]);
    }
  }

  lemma RemovalOnlyLoses(s: Store, ref: Ref)
    ensures var t := DoRemove(s, ref);
            && t.crs == s.crs && t.issued == s.issued && s.rv <= t.rv
            && (forall r | r in t.owned :: r in s.owned && KeepsMetadata(s.owned[r], t.owned[r])
                                           && s.owned[r].body == t.owned[r].body && s.owned[r].held == t.owned[r].held
                                           && (t.owned[r].rv == s.owned[r].rv || t.owned[r].rv == t.rv))
  {
  }

  lemma RemoveKeepsInv(cfg: Config, s: Store, actor: Actor, ref: Ref)
    requires Inv(cfg, s) && MayRemove(cfg, s, actor, ref)
    ensures Inv(cfg, DoRemove(s, ref))
  {
    hide OwnershipOk, FrozenOk, MayRemove, ShapeOk, DoRemove, Claimed;
    var t := DoRemove(s, ref);
    RemovalOnlyLoses(s, ref);
    assert CrsOk(t.rv, t.issued, t.crs);
    assert VersionsOk(t.rv, t.owned);
    LosingKeepsNames(s.owned, t.owned);
    if !cfg.staleReads {
      LosingObjectKeepsOwnership(cfg, s, t);
      if cfg.requireApproval {
        SourceStaysForLocations(cfg, s, actor, ref);
        LosingObjectKeepsFrozen(cfg, s.crs, s.owned, t.owned);
      }
    }
  }

  lemma LosingKeepsNames(was: Objs, now: Objs)
    requires NamesOk(was)
    requires forall r | r in now :: r in was && KeepsMetadata(was[r], now[r]) && was[r].body == now[r].body
    ensures NamesOk(now)
  {
    forall ref | ref in now && ref.kind == DELETION && Claimed(ref, now[ref]) ensures NamesItsBackup(now[ref]) {
      assert NamesItsBackup(was[ref]);
    }
    forall ref | ref in now && ref.kind != DELETION && Claimed(ref, now[ref]) ensures NamedByLabel(ref, now[ref]) {
      assert NamedByLabel(ref, was[ref]);
    }
  }

  lemma SourceStaysForLocations(cfg: Config, s: Store, actor: Actor, ref: Ref)
    requires !cfg.staleReads && cfg.requireApproval && Inv(cfg, s) && MayRemove(cfg, s, actor, ref)
    ensures forall r | r in s.owned && r.kind == BSL && Claimed(r, s.owned[r]) && r.name !in cfg.raced
                       && HasOwner(s.crs, r, s.owned[r]) && !s.crs[OriginOf(NABSL, s.owned[r])].deleting ::
              SourceOf(DoRemove(s, ref).owned, r.name) == SourceOf(s.owned, r.name)
  {
    hide LocationFields, CrsOk, NamesOk, OwnersOk, DeletionsOk, SyncLabelsOk, OwnUuids, VersionsOk;
    forall r | r in s.owned && r.kind == BSL && Claimed(r, s.owned[r]) && r.name !in cfg.raced
               && HasOwner(s.crs, r, s.owned[r]) && !s.crs[OriginOf(NABSL, s.owned[r])].deleting
      ensures SourceOf(DoRemove(s, ref).owned, r.name) == SourceOf(s.owned, r.name)
    {
      assert LocationFrozen(cfg, s.crs, s.owned, r, s.owned[r]) && NameIssued(s.issued, r, s.owned[r]);
      assert ref in s.owned ==> NameIssued(s.issued, ref, s.owned[ref]);
      HolderIsIssuedTo(cfg, s, OriginOf(NABSL, s.owned[r]), r.name);
      if actor.Worker? && actor.id in s.crs && s.crs[actor.id].status.uuid == r.name {
        CarrierIsIssuedTo(cfg, s, actor.id);
      }
      assert ref in s.owned && ref.kind == REQUEST && Claimed(ref, s.owned[ref]) ==>
          RequestOk(s.issued, ref, s.owned[ref]);
    }
  }

  lemma ReleaseKeepsInv(cfg: Config, s: Store, ref: Ref)
    requires Inv(cfg, s) && ref.kind != REQUEST
    ensures Inv(cfg, Apply(s, Release(ref)))
  {
    hide OwnershipOk, FrozenOk;
    var t := Apply(s, Release(ref));
    if !cfg.staleReads {
      LosingObjectKeepsOwnership(cfg, s, t);
      if cfg.requireApproval {
        LosingObjectKeepsFrozen(cfg, s.crs, s.owned, t.owned);
      }
    }
  }

  /** Every write an actor may make keeps the invariant. */
  lemma StepKeepsInv(cfg: Config, s: Store, step: Step)
    requires Inv(cfg, s) && Enabled(cfg, s, step)
    ensures Inv(cfg, Apply(s, step.op))
  {
    hide CrsOk, NamesOk, OwnershipOk, FrozenOk;
    match step.op
    case Create(id, spec, sync) => CreateKeepsInv(cfg, s, step.actor, id, spec, sync);
    case Edit(id, spec) => EditKeepsInv(cfg, s, id, spec);
    case Delete(id) => DeleteKeepsInv(cfg, s, id);
    case WriteStatus(id, status) => WriteStatusKeepsInv(cfg, s, id, status);
    case WriteFinalizer(id, on) => WriteFinalizerKeepsInv(cfg, s, id, on);
    case Import(ref, o) => ImportKeepsInv(cfg, s, ref, o);
    case Put(ref, o) =>
      if step.actor.Worker? {
        WorkerPutKeepsInv(cfg, s, step.actor.id, ref, o);
      } else {
        OutsiderPutKeepsInv(cfg, s, step.actor, ref, o);
      }
    case Remove(ref) => RemoveKeepsInv(cfg, s, step.actor, ref);
    case Release(ref) => ReleaseKeepsInv(cfg, s, ref);
    case SetSecret(_, _) => OwnershipReadsNoMore(cfg, s, Apply(s, step.op));
    case SetNamespace(_, _) => OwnershipReadsNoMore(cfg, s, Apply(s, step.op));
    case Tick => OwnershipReadsNoMore(cfg, s, Apply(s, step.op));
  }

  /** An import brings a backup back without its owner; nothing else loses its own. */
  lemma ImportKeepsInv(cfg: Config, s: Store, ref: Ref, o: Owned)
    requires Inv(cfg, s) && MayImport(cfg, s, ref, o)
    ensures Inv(cfg, DoImport(s, ref, o))
  {
    hide OwnershipOk, FrozenOk, ShapeOk, NameUnused;
    var t := DoImport(s, ref, o);
    forall i | i in t.crs ensures CrOk(t.rv, t.issued, i, t.crs[i]) {
      assert CrOk(s.rv, s.issued, i, s.crs[i]);
    }
    if !cfg.staleReads {
      ImportKeepsOwnership(cfg, s, ref, o);
      if cfg.requireApproval {
        forall uuid ensures SourceOf(t.owned, uuid) == SourceOf(s.owned, uuid) {}
        FrozenSurvives(cfg, s.crs, s.owned, t.owned, ref);
      }
    }
  }

  lemma ImportKeepsOwnership(cfg: Config, s: Store, ref: Ref, o: Owned)
    requires OwnershipOk(cfg.reimports, s) && MayImport(cfg, s, ref, o)
    ensures OwnershipOk(cfg.reimports, DoImport(s, ref, o))
  {
    hide OwnersOk, PlainOk, SyncLabelsOk, OwnUuids;
    var t := DoImport(s, ref, o);
    if ref.name !in s.issued {
      FreshNameKeepsNames(s, OriginOf(NAB, o), ref.name);
    }
    ImportKeepsOwners(cfg, s, ref, o);
    forall r | r in t.owned
      ensures NameIssued(t.issued, r, t.owned[r])
      ensures r.kind == REQUEST && Claimed(r, t.owned[r]) ==> RequestOk(t.issued, r, t.owned[r])
      ensures r.kind == BACKUP && Claimed(r, t.owned[r]) ==> BackupOk(t.issued, r, t.owned[r])
    {
      assert r != ref ==> NameIssued(s.issued, r, s.owned[r]);
      assert r != ref ==> NameIssued(t.issued, r, s.owned[r]);
      assert r != ref && r.kind == REQUEST && Claimed(r, s.owned[r]) ==> RequestOk(s.issued, r, s.owned[r]);
      assert r != ref && r.kind == BACKUP && Claimed(r, s.owned[r]) ==> BackupOk(s.issued, r, s.owned[r]);
    }
    assert DeletionsOk(t.issued, t.owned) by {
      forall uuid, a, b | uuid in t.issued && ForBackup(t.owned, a, uuid) && ForBackup(t.owned, b, uuid) ensures a == b {
        assert ForBackup(s.owned, a, uuid) && ForBackup(s.owned, b, uuid);
      }
    }
  }

  lemma ImportKeepsOwners(cfg: Config, s: Store, ref: Ref, o: Owned)
    requires OwnershipOk(cfg.reimports, s) && MayImport(cfg, s, ref, o)
    ensures var t := DoImport(s, ref, o);
            && OwnersOk(cfg.reimports, t.crs, t.owned) && PlainOk(t.owned)
            && SyncLabelsOk(cfg.reimports, t.issued, t.crs) && OwnUuids(t.issued, t.crs)
  {
    hide IssuedNames, RequestsOk, BackupsOk, DeletionsOk, NameUnused;
    var t := DoImport(s, ref, o);
    forall r | r in t.owned
      ensures Guarded(cfg.reimports, r.kind) && Claimed(r, t.owned[r]) ==> HasOwner(t.crs, r, t.owned[r])
      ensures Claimed(r, t.owned[r]) ==> PlainObject(r, t.owned[r])
    {
      assert r != ref && Guarded(cfg.reimports, r.kind) && Claimed(r, s.owned[r]) ==> HasOwner(s.crs, r, s.owned[r]);
      assert r != ref && Claimed(r, s.owned[r]) ==> PlainObject(r, s.owned[r]);
    }
    forall id | id in t.crs ensures SyncLabelOk(cfg.reimports, t.issued, id, t.crs[id]) {
      assert SyncLabelOk(cfg.reimports, s.issued, id, s.crs[id]);
    }
  }

  predicate WritesObjects(op: Op) {
    op.Put? || op.Import? || op.Remove? || op.Release? || op.SetSecret? || op.SetNamespace? || op.Tick?
  }

  lemma ObjectWritesLeaveCrs(s: Store, op: Op)
    requires WritesObjects(op)
    ensures Apply(s, op).crs == s.crs && (op.Import? || Apply(s, op).issued == s.issued)
  {
  }

  lemma CrWritesLeaveOwned(s: Store, op: Op)
    requires !op.Put? && !op.Import? && !op.Remove? && !op.Release?
    ensures Apply(s, op).owned == s.owned
    ensures op.WriteStatus? || Apply(s, op).issued == s.issued
  {
  }

  lemma OwnedOnlyByPut(s: Store, op: Op)
    ensures !op.Put? && !op.Import? ==> forall ref | ref in Apply(s, op).owned ::
              ref in s.owned && KeepsMetadata(s.owned[ref], Apply(s, op).owned[ref])
              && Apply(s, op).owned[ref].body == s.owned[ref].body
  {
  }

  /** A NACUUID once given out belongs to the object that has it, and to no later one; only a
      backup brought back may get its old one again. */
  lemma IssuedUuidStays(cfg: Config, s: Store, step: Step, id: Id, uuid: string)
    requires Inv(cfg, s) && !cfg.staleReads && Enabled(cfg, s, step)
    requires uuid in s.issued && (cfg.reimports ==> s.issued[uuid].kind != NAB)
    requires id in Apply(s, step.op).crs && Apply(s, step.op).crs[id].status.uuid == uuid
    ensures id in s.crs && s.crs[id].status.uuid == uuid
    ensures IsTrue(s.crs[id].status.conds, Queued) ==> IsTrue(Apply(s, step.op).crs[id].status.conds, Queued)
    ensures s.crs[id].deleting ==> Apply(s, step.op).crs[id].deleting
  {
    hide NamesOk, IssuedNames, BackupsOk, OwnersOk, RequestsOk, PlainOk, DeletionsOk, FrozenOk, VersionsOk, SyncSource,
         WorkerMayPut, OutsiderMayPut, MayRemove, MayImport, ShapeOk, OwnUuids, DoPut, DoRemove, DoImport, CrsOk;
    EmptyIsNotIssued(cfg, s);
    if WritesObjects(step.op) {
      ObjectWritesLeaveCrs(s, step.op);
    } else if step.op.WriteStatus? {
      assert SyncLabelOk(cfg.reimports, s.issued, step.op.id, s.crs[step.op.id]);
    }
  }

  lemma EmptyIsNotIssued(cfg: Config, s: Store)
    requires Inv(cfg, s)
    ensures "" !in s.issued
  {
  }

  lemma OwnershipReadsNoMore(cfg: Config, s: Store, t: Store)
    requires t.crs == s.crs && t.owned == s.owned && t.issued == s.issued
    ensures OwnershipOk(cfg.reimports, s) == OwnershipOk(cfg.reimports, t)
  {
  }
}
