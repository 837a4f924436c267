/**
 A pass of the backup or restore controller that gets to the end leaves nothing for the next
 one: an undisturbed second pass writes nothing at all.
 */
module Settling {
  import opened Objects
  import opened Specs
  import opened Cluster
  import opened Protocol
  import opened Interference
  import opened ApiClient
  import opened Steps
  import opened NabPass
  import opened NarPass
  import opened Naming
  import Queue

  /** What a finished pass leaves: the Velero object is there under the NACUUID, the finalizer is
      on, and the status has accepted, queued, and recorded the object and its current position. */
  ghost predicate Finished(s: Store, id: Id, kind: OwnedKind, accepted: Reason, scheduled: Reason) {
    && id in s.crs && s.crs[id].finalizer && s.crs[id].status.uuid != "" && s.crs[id].status.phase == Created
    && var st, ref := s.crs[id].status, Ref(kind, s.crs[id].status.uuid);
       && ref in s.owned && Found(s, kind, ref.name) == {ref}
       && Accepted in st.conds && st.conds[Accepted] == Condition(true, accepted, NoMessage)
       && Queued in st.conds && st.conds[Queued] == Condition(true, scheduled, NoMessage)
       && st.queue == Some(Queue.Position(s.owned, kind, s.owned[ref])) && st.mirror == Some(MirrorOf(s.owned[ref].body))
  }

  /** A finished object stays as it is when its status is computed anew. */
  lemma FinishedStatusStays(s: Store, id: Id, kind: OwnedKind, accepted: Reason, scheduled: Reason)
    requires Finished(s, id, kind, accepted, scheduled)
    ensures var st, o := s.crs[id].status, s.owned[Ref(kind, s.crs[id].status.uuid)];
            && (forall invalid :: Checked(st, None, accepted, invalid) == st)
            && Recorded(st, Some(Queue.Position(s.owned, kind, o)), o.body, scheduled) == st
  {
    var st, o := s.crs[id].status, s.owned[Ref(kind, s.crs[id].status.uuid)];
    forall invalid ensures Checked(st, None, accepted, invalid) == st {
      assert Checked(st, None, accepted, invalid).conds == st.conds;
    }
    assert Recorded(st, Some(Queue.Position(s.owned, kind, o)), o.body, scheduled).conds == st.conds;
  }

  lemma FinishedBackupIsIdle(cfg: Config, s: Store, id: Id, token: string)
    requires Finished(s, id, BACKUP, BackupAccepted, BackupScheduled) && |token| == UuidLength
    requires BackupError(cfg, s, id.ns, s.crs[id].spec.fields).None?
    requires HasValue(s.owned[Ref(BACKUP, s.crs[id].status.uuid)].annotations, OriginNamespace(NAB), id.ns)
    ensures CreatePass(cfg, s, id, token) == Out(s, Continue)
  {
    hide BackupError, Found, Recorded, Checked, Queue.Position;
    FinishedStatusStays(s, id, BACKUP, BackupAccepted, BackupScheduled);
    SameStatusIsNoWrite(s, id);
    OnlyMember(Ref(BACKUP, s.crs[id].status.uuid));
  }

  lemma FinishedRestoreIsIdle(cfg: Config, s: Store, id: Id, token: string)
    requires Finished(s, id, RESTORE, RestoreAccepted, RestoreScheduled) && |token| == UuidLength
    requires RestoreError(cfg, s, id.ns, s.crs[id].spec.fields).None?
    ensures RestorePass(cfg, s, id, token) == Out(s, Continue)
  {
    hide RestoreError, Found, Recorded, Checked, Queue.Position;
    FinishedStatusStays(s, id, RESTORE, RestoreAccepted, RestoreScheduled);
    SameStatusIsNoWrite(s, id);
    OnlyMember(Ref(RESTORE, s.crs[id].status.uuid));
  }

  /** The store before the last step: entered, validated, named and held. */
  ghost predicate Prepared(s0: Store, s: Store, id: Id, kind: OwnedKind, accepted: Reason) {
    && id in s0.crs && id in s.crs && s.owned == s0.owned && s.clock == s0.clock
    && s.crs[id].finalizer && s.crs[id].status.uuid != "" && s.crs[id].spec == s0.crs[id].spec
    && s.crs[id].status.phase != Unset
    && Accepted in s.crs[id].status.conds && s.crs[id].status.conds[Accepted] == Condition(true, accepted, NoMessage)
    && (forall i: Id | i != id :: SameCr(s0, s, i))
    && var ref := Ref(kind, s.crs[id].status.uuid);
       Found(s, kind, ref.name) == if ref in s.owned then {ref} else {}
  }

  /** The NACUUID the object has, or is about to get. */
  function NacuuidAfter(s: Store, id: Id, token: string): string
    requires id in s.crs && (s.crs[id].status.uuid == "" ==> |token| == UuidLength)
  {
    if s.crs[id].status.uuid == "" then Generated(id.ns, id.name, token) else s.crs[id].status.uuid
  }

  /** What may be found under the NACUUID of an object, or under a fresh one. */
  lemma NamedOrNothing(cfg: Config, s: Store, id: Id, kind: OwnedKind, token: string)
    requires Inv(cfg, s) && !cfg.staleReads && id in s.crs && Protected(kind) && OwnerKind(kind) == id.kind
    requires s.crs[id].status.uuid == "" ==> |token| == UuidLength && TokenFree(s, token)
    ensures var uuid := NacuuidAfter(s, id, token);
            && uuid != "" && Found(s, kind, uuid) == (if Ref(kind, uuid) in s.owned then {Ref(kind, uuid)} else {})
            && (Ref(kind, uuid) in s.owned ==> NamesOrigin(id, s.owned[Ref(kind, uuid)]))
  {
    hide Inv, Found, TokenFree, NamesOrigin;
    if s.crs[id].status.uuid == "" {
      GeneratedNameBounds(id.ns, id.name, token);
      FreshIsAbsent(cfg, s, kind, token, Generated(id.ns, id.name, token));
    } else {
      var uuid := s.crs[id].status.uuid;
      CarrierIsIssuedTo(cfg, s, id);
      NoneFoundNoneNamed(cfg, s, id, kind, uuid);
      AtMostOneFound(cfg, s, kind, uuid);
      FoundIsThere(s, kind, uuid);
      if Ref(kind, uuid) in s.owned {
        OwnedByItsNamesake(cfg, s, id, Ref(kind, uuid));
      }
    }
  }

  lemma FoundIsThere(s: Store, kind: OwnedKind, uuid: string)
    ensures Found(s, kind, uuid) <= s.owned.Keys
  {
  }

  predicate NamesOrigin(id: Id, o: Owned) {
    OriginNamespace(id.kind) in o.annotations && OriginName(id.kind) in o.annotations && OriginOf(id.kind, o) == id
  }

  lemma OwnedByItsNamesake(cfg: Config, s: Store, id: Id, ref: Ref)
    requires Inv(cfg, s) && !cfg.staleReads && ref in s.owned && Protected(ref.kind) && OwnerKind(ref.kind) == id.kind
    requires id in s.crs && s.crs[id].status.uuid == ref.name && IssuedTo(s, id, ref.name)
    ensures NamesOrigin(id, s.owned[ref])
  {
    hide RequestsOk, PlainOk, DeletionsOk, FrozenOk, VersionsOk, SyncLabelsOk, CrsOk;
    assert NameIssued(s.issued, ref, s.owned[ref]);
    if ref.kind == BACKUP {
      assert BackupOk(s.issued, ref, s.owned[ref]);
    } else {
      assert HasOwner(s.crs, ref, s.owned[ref]);
      HolderIsIssuedTo(cfg, s, OriginOf(id.kind, s.owned[ref]), ref.name);
    }
  }

  lemma FreshIsAbsent(cfg: Config, s: Store, kind: OwnedKind, token: string, uuid: string)
    requires Inv(cfg, s) && kind != DELETION && TokenFree(s, token) && EndsWith(uuid, token)
    ensures Found(s, kind, uuid) == {} && Ref(kind, uuid) !in s.owned
  {
    hide CrsOk, OwnershipOk, FrozenOk, VersionsOk, EndsWith;
    forall ref: Ref | ref in s.owned && ref.kind == kind ensures !LabelledWith(OwnerKind(kind), s.owned[ref], uuid) {
      assert Claimed(ref, s.owned[ref]) ==> NamedByLabel(ref, s.owned[ref]);
    }
  }

  /** Whether a backup spec is valid depends only on storage locations. */
  lemma ValidityFrame(cfg: Config, s: Store, t: Store, ns: string, fields: Fields)
    requires forall i: Id | i.kind == NABSL :: SameCr(s, t, i)
    requires forall ref: Ref | ref.kind == BSL ::
               (ref in s.owned <==> ref in t.owned) && (ref in s.owned ==> s.owned[ref] == t.owned[ref])
    ensures BackupError(cfg, s, ns, fields) == BackupError(cfg, t, ns, fields)
  {
    var id := Id(NABSL, ns, StrOf(fields, StorageLocation));
    assert SameCr(s, t, id);
    if id in s.crs {
      assert Found(s, BSL, s.crs[id].status.uuid) == Found(t, BSL, s.crs[id].status.uuid);
      var found := Found(s, BSL, s.crs[id].status.uuid);
      if |found| == 1 {
        assert Only(found) in found;
      }
    }
  }

  /** Init, validation, NACUUID and finalizer. */
  ghost function Preparing(cfg: Config, s: Store, id: Id, token: string): (t: Store)
    requires id in s.crs && |token| == UuidLength
    ensures id in t.crs
  {
    FinalizerStep(UuidStep(ValidateStep(cfg, InitStep(s, id).store, id).store, id, token).store, id).store
  }

  lemma PreparedForBackup(cfg: Config, s: Store, id: Id, token: string)
    requires Inv(cfg, s) && !cfg.staleReads && id in s.crs && id.kind == NAB && |token| == UuidLength
    requires s.crs[id].sync.None?
    requires s.crs[id].status.uuid == "" ==> TokenFree(s, token)
    requires BackupError(cfg, s, id.ns, s.crs[id].spec.fields).None?
    ensures var t := Preparing(cfg, s, id, token);
            && Prepared(s, t, id, BACKUP, BackupAccepted) && t.crs[id].sync.None?
            && t.crs[id].status.uuid == NacuuidAfter(s, id, token)
            && CreatePass(cfg, s, id, token) == BackupStep(cfg, t, id)
            && BackupError(cfg, t, id.ns, t.crs[id].spec.fields).None?
            && (Ref(BACKUP, t.crs[id].status.uuid) in t.owned ==>
                  HasValue(t.owned[Ref(BACKUP, t.crs[id].status.uuid)].annotations, OriginNamespace(NAB), id.ns))
  {
    hide Inv, BackupError, Found, TokenFree, BackupStep, Preparing, CreatePass, NamesOrigin;
    NamedOrNothing(cfg, s, id, BACKUP, token);
    PreparingPrepares(cfg, s, id, token);
    var t := Preparing(cfg, s, id, token);
    SameFound(s, t, BACKUP, t.crs[id].status.uuid);
    ValidityFrame(cfg, s, t, id.ns, s.crs[id].spec.fields);
    OwnerIsNamed(s, t, id, BACKUP);
  }

  lemma OwnerIsNamed(s: Store, t: Store, id: Id, kind: OwnedKind)
    requires id in t.crs && t.owned == s.owned && OwnerKind(kind) == id.kind
    requires var ref := Ref(kind, t.crs[id].status.uuid);
             ref in s.owned ==> NamesOrigin(id, s.owned[ref])
    ensures var ref := Ref(kind, t.crs[id].status.uuid);
            ref in t.owned ==> HasValue(t.owned[ref].annotations, OriginNamespace(id.kind), id.ns)
  {
  }

  lemma PreparingPrepares(cfg: Config, s: Store, id: Id, token: string)
    requires id in s.crs && id.kind == NAB && |token| == UuidLength && s.crs[id].sync.None?
    requires BackupError(cfg, s, id.ns, s.crs[id].spec.fields).None?
    ensures var t := Preparing(cfg, s, id, token);
            && t.owned == s.owned && t.clock == s.clock && t.crs[id].spec == s.crs[id].spec && t.crs[id].finalizer
            && t.crs[id].sync.None? && t.crs[id].status.phase != Unset
            && t.crs[id].status.uuid == NacuuidAfter(s, id, token)
            && Accepted in t.crs[id].status.conds
            && t.crs[id].status.conds[Accepted] == Condition(true, BackupAccepted, NoMessage)
            && (forall i: Id | i != id :: SameCr(s, t, i))
            && CreatePass(cfg, s, id, token) == BackupStep(cfg, t, id)
  {
    hide BackupError, BackupStep, DoWriteStatus, Generated, OnlyMine;
    var s1 := InitStep(s, id).store;
    StatusOnly(s, id, s.crs[id].status.(phase := New));
    ValidityMine(cfg, s, s1, id);
    StatusOnly(s1, id, Checked(s1.crs[id].status, None, BackupAccepted, InvalidBackupSpec));
    var s2 := ValidateStep(cfg, s1, id).store;
    StatusOnly(s2, id, s2.crs[id].status.(uuid := Generated(id.ns, id.name, token)));
    var s3 := UuidStep(s2, id, token).store;
    FinalizerOnly(s3, id);
    OnlyMineTransitive(s, s1, s2, id);
    OnlyMineTransitive(s, s2, s3, id);
    OnlyMineTransitive(s, s3, FinalizerStep(s3, id).store, id);
    OnlyMineMeans(s, FinalizerStep(s3, id).store, id);
  }

  /** Nothing differs but status, finalizer and version of this object. */
  ghost predicate OnlyMine(s: Store, t: Store, id: Id) {
    && id in s.crs && id in t.crs && t.owned == s.owned && t.clock == s.clock
    && t.crs[id].spec == s.crs[id].spec && t.crs[id].sync == s.crs[id].sync
    && (forall i: Id | i != id :: SameCr(s, t, i))
  }

  lemma OnlyMineMeans(s: Store, t: Store, id: Id)
    requires OnlyMine(s, t, id)
    ensures t.owned == s.owned && t.clock == s.clock && id in t.crs && t.crs[id].spec == s.crs[id].spec
    ensures t.crs[id].sync == s.crs[id].sync && forall i: Id | i != id :: SameCr(s, t, i)
  {
  }

  lemma OnlyMineTransitive(s: Store, t: Store, u: Store, id: Id)
    requires OnlyMine(s, t, id) && OnlyMine(t, u, id)
    ensures OnlyMine(s, u, id)
  {
    forall i: Id | i != id ensures SameCr(s, u, i) {
      assert SameCr(s, t, i) && SameCr(t, u, i);
    }
  }

  lemma StatusOnly(s: Store, id: Id, st: Status)
    requires id in s.crs
    ensures OnlyMine(s, s, id) && OnlyMine(s, DoWriteStatus(s, id, st), id)
    ensures var t := DoWriteStatus(s, id, st);
            id in t.crs && t.crs[id].status == st && t.crs[id].spec == s.crs[id].spec && t.crs[id].finalizer == s.crs[id].finalizer
            && t.crs[id].sync == s.crs[id].sync
  {
  }

  lemma FinalizerOnly(s: Store, id: Id)
    requires id in s.crs
    ensures var t := FinalizerStep(s, id).store;
            OnlyMine(s, t, id) && t.crs[id].finalizer && t.crs[id].status == s.crs[id].status
  {
  }

  lemma ValidityMine(cfg: Config, s: Store, t: Store, id: Id)
    requires OnlyMine(s, t, id) && id.kind == NAB
    ensures BackupError(cfg, t, id.ns, s.crs[id].spec.fields) == BackupError(cfg, s, id.ns, s.crs[id].spec.fields)
    ensures t.crs[id].spec == s.crs[id].spec
  {
    ValidityFrame(cfg, s, t, id.ns, s.crs[id].spec.fields);
  }

  lemma SameFound(s: Store, t: Store, kind: OwnedKind, uuid: string)
    requires t.owned == s.owned
    ensures Found(t, kind, uuid) == Found(s, kind, uuid)
  {
  }

  /** The Velero backup is the one the spec asks for, in the user's own namespace. */
  ghost predicate MadeToOrder(cfg: Config, s: Store, id: Id, fields: Fields, o: Owned) {
    var location := VeleroLocation(cfg, s, id.ns, fields);
    && location.Some? && o.body.Backup? && !o.body.completed && o.body.created == s.clock
    && o.body.fields == BackupFields(cfg.enforcedBackup, fields, id.ns, location.value)
    && o.annotations == OwnerAnnotations(id)
  }

  lemma BackupStepFinishes(cfg: Config, s0: Store, s: Store, id: Id)
    requires Prepared(s0, s, id, BACKUP, BackupAccepted) && BackupStep(cfg, s, id).outcome == Continue && id.kind == NAB
    requires s.crs[id].sync.None?
    ensures var t, ref := BackupStep(cfg, s, id).store, Ref(BACKUP, s.crs[id].status.uuid);
            && Finished(t, id, BACKUP, BackupAccepted, BackupScheduled)
            && t.crs[id].status.uuid == ref.name && t.crs[id].spec == s.crs[id].spec
            && (forall i: Id | i != id :: SameCr(s, t, i))
            && (forall r: Ref | r != ref :: (r in s.owned <==> r in t.owned) && (r in s.owned ==> s.owned[r] == t.owned[r]))
            && (if ref in s.owned then t.owned[ref] == s.owned[ref]
                else MadeToOrder(cfg, s, id, s.crs[id].spec.fields, t.owned[ref]))
  {
    hide BackupFields, VeleroLocation, DoWriteStatus, Queue.Position;
    var ref := Ref(BACKUP, s.crs[id].status.uuid);
    OnlyMember(ref);
    var st := s.crs[id].status;
    if ref in s.owned {
      StatusWritten(s, id, Recorded(st, Some(Queue.Position(s.owned, BACKUP, s.owned[ref])), s.owned[ref].body, BackupScheduled));
      SameFound(s, BackupStep(cfg, s, id).store, BACKUP, ref.name);
    } else {
      var fields := BackupFields(cfg.enforcedBackup, s.crs[id].spec.fields, id.ns,
                                 VeleroLocation(cfg, s, id.ns, s.crs[id].spec.fields).value);
      var o := Stamped(s, NewObject(id, ref.name, Backup(fields, 0, false, 0)));
      var s1 := DoPut(s, ref, o);
      PutIsFound(s, ref, o);
      var made := s1.owned[ref];
      StatusWritten(s1, id, Recorded(st, Some(Queue.Position(s1.owned, BACKUP, made)), made.body, BackupScheduled));
      SameFound(s1, BackupStep(cfg, s, id).store, BACKUP, ref.name);
      forall i: Id | i != id ensures SameCr(s, BackupStep(cfg, s, id).store, i) {
        assert SameCr(s1, BackupStep(cfg, s, id).store, i);
      }
    }
  }

  lemma PutIsFound(s: Store, ref: Ref, o: Owned)
    requires ref !in s.owned && ref.kind != DELETION && Found(s, ref.kind, ref.name) == {}
    requires LabelledWith(OwnerKind(ref.kind), o, ref.name)
    ensures Found(DoPut(s, ref, o), ref.kind, ref.name) == {ref}
  {
    forall r ensures r in Found(DoPut(s, ref, o), ref.kind, ref.name) <==> r == ref {
      assert r !in Found(s, ref.kind, ref.name);
    }
  }

  /** An undisturbed pass that gets to the end has made the Velero backup to order, if there was
      none, and recorded it; and the next undisturbed pass writes nothing. */
  lemma BackupPassSettles(cfg: Config, s: Store, id: Id, token1: string, token2: string)
    requires Inv(cfg, s) && !cfg.staleReads && id in s.crs && id.kind == NAB && |token1| == |token2| == UuidLength
    requires s.crs[id].sync.None?
    requires s.crs[id].status.uuid == "" ==> TokenFree(s, token1)
    ensures CreatePass(cfg, s, id, token1).outcome == Continue ==>
              var t := CreatePass(cfg, s, id, token1).store;
              var ref := Ref(BACKUP, t.crs[id].status.uuid);
              && Finished(t, id, BACKUP, BackupAccepted, BackupScheduled)
              && (if ref in s.owned then t.owned == s.owned
                  else MadeToOrder(cfg, s, id, s.crs[id].spec.fields, t.owned[ref]) && t.owned.Keys == s.owned.Keys + {ref})
              && CreatePass(cfg, t, id, token2) == Out(t, Continue)
  {
    hide *;
    if CreatePass(cfg, s, id, token1).outcome == Continue {
      BackupPassEnds(cfg, s, id, token1);
      var t := CreatePass(cfg, s, id, token1).store;
      FinishedIsThere(t, id);
      FinishedBackupIsIdle(cfg, t, id, token2);
    }
  }

  lemma BackupPassEnds(cfg: Config, s: Store, id: Id, token: string)
    requires Inv(cfg, s) && !cfg.staleReads && id in s.crs && id.kind == NAB && |token| == UuidLength
    requires s.crs[id].sync.None?
    requires s.crs[id].status.uuid == "" ==> TokenFree(s, token)
    requires CreatePass(cfg, s, id, token).outcome == Continue
    ensures var t := CreatePass(cfg, s, id, token).store;
            var ref := Ref(BACKUP, t.crs[id].status.uuid);
            && Finished(t, id, BACKUP, BackupAccepted, BackupScheduled) && ref in t.owned
            && t.crs[id].status.uuid == NacuuidAfter(s, id, token)
            && BackupError(cfg, t, id.ns, t.crs[id].spec.fields).None?
            && HasValue(t.owned[ref].annotations, OriginNamespace(NAB), id.ns)
            && (if ref in s.owned then t.owned == s.owned
                else MadeToOrder(cfg, s, id, s.crs[id].spec.fields, t.owned[ref]) && t.owned.Keys == s.owned.Keys + {ref})
  {
    ValidIfItContinues(cfg, s, id, token);
    PreparedForBackup(cfg, s, id, token);
    hide Inv, BackupError, CreatePass, BackupStep, Preparing, Found, TokenFree, BackupFields, Finished, MadeToOrder, Prepared;
    var s4 := Preparing(cfg, s, id, token);
    var t := CreatePass(cfg, s, id, token).store;
    BackupStepFinishes(cfg, s, s4, id);
    PreparedLeaves(cfg, s, s4, id);
    ValidityFrame(cfg, s4, t, id.ns, s.crs[id].spec.fields);
    FinishedIsThere(t, id);
    var ref := Ref(BACKUP, t.crs[id].status.uuid);
    SameButOne(s.owned, t.owned, ref);
    MadeAlike(cfg, s4, s, id, s.crs[id].spec.fields, t.owned[ref]);
    if ref !in s.owned {
      MadeIsAnnotated(cfg, s4, id, s.crs[id].spec.fields, t.owned[ref]);
    }
  }

  lemma MadeIsAnnotated(cfg: Config, s: Store, id: Id, fields: Fields, o: Owned)
    requires MadeToOrder(cfg, s, id, fields, o) && id.kind == NAB
    ensures HasValue(o.annotations, OriginNamespace(NAB), id.ns)
  {
  }

  lemma PreparedLeaves(cfg: Config, s0: Store, s: Store, id: Id)
    requires Prepared(s0, s, id, BACKUP, BackupAccepted)
    ensures s.owned == s0.owned && s.clock == s0.clock && id in s.crs && id in s0.crs && s.crs[id].spec == s0.crs[id].spec
    ensures forall i: Id | i != id :: SameCr(s0, s, i)
  {
  }

  lemma SameButOne(was: Objs, now: Objs, ref: Ref)
    requires ref in now && forall r: Ref | r != ref :: (r in was <==> r in now) && (r in was ==> was[r] == now[r])
    ensures now.Keys == was.Keys + {ref} && (ref in was && now[ref] == was[ref] ==> now == was)
  {
  }

  lemma MadeAlike(cfg: Config, s: Store, t: Store, id: Id, fields: Fields, o: Owned)
    requires s.clock == t.clock && id.kind == NAB && forall i: Id | i != id :: SameCr(t, s, i)
    ensures MadeToOrder(cfg, s, id, fields, o) == MadeToOrder(cfg, t, id, fields, o)
  {
    assert SameCr(t, s, Id(NABSL, id.ns, StrOf(Merged(cfg.enforcedBackup, fields), StorageLocation)));
  }

  lemma FinishedIsThere(s: Store, id: Id)
    requires Finished(s, id, BACKUP, BackupAccepted, BackupScheduled)
    ensures Ref(BACKUP, s.crs[id].status.uuid) in s.owned
  {
  }

  lemma ValidIfItContinues(cfg: Config, s: Store, id: Id, token: string)
    requires id in s.crs && id.kind == NAB && |token| == UuidLength && CreatePass(cfg, s, id, token).outcome == Continue
    ensures BackupError(cfg, s, id.ns, s.crs[id].spec.fields).None?
  {
    hide BackupError, SyncPass, DoWriteStatus;
    var s1 := InitStep(s, id).store;
    StatusWritten(s, id, s.crs[id].status.(phase := New));
    ValidityFrame(cfg, s, s1, id.ns, s.crs[id].spec.fields);
  }

  // ---- Restores ----

  /** Whether a restore spec is valid depends only on backups. */
  lemma RestoreValidityFrame(cfg: Config, s: Store, t: Store, ns: string, fields: Fields)
    requires forall i: Id | i.kind == NAB :: SameCr(s, t, i)
    ensures RestoreError(cfg, s, ns, fields) == RestoreError(cfg, t, ns, fields)
  {
    assert SameCr(s, t, Id(NAB, ns, StrOf(fields, BackupName)));
  }

  ghost function PreparingRestore(cfg: Config, s: Store, id: Id, token: string): (t: Store)
    requires id in s.crs && |token| == UuidLength
    ensures id in t.crs
  {
    FinalizerStep(RestoreUuidStep(ValidateRestoreStep(cfg, InitStep(s, id).store, id).store, id, token).store, id).store
  }

  lemma PreparingRestorePrepares(cfg: Config, s: Store, id: Id, token: string)
    requires id in s.crs && id.kind == NAR && |token| == UuidLength
    requires RestoreError(cfg, s, id.ns, s.crs[id].spec.fields).None?
    ensures var t := PreparingRestore(cfg, s, id, token);
            && OnlyMine(s, t, id) && t.crs[id].finalizer && t.crs[id].status.phase != Unset
            && t.crs[id].status.uuid == NacuuidAfter(s, id, token)
            && Accepted in t.crs[id].status.conds
            && t.crs[id].status.conds[Accepted] == Condition(true, RestoreAccepted, NoMessage)
            && RestorePass(cfg, s, id, token) == RestoreStep(cfg, t, id)
  {
    hide RestoreError, RestoreStep, DoWriteStatus, Generated, OnlyMine;
    var s1 := InitStep(s, id).store;
    StatusOnly(s, id, s.crs[id].status.(phase := New));
    RestoreValidityMine(cfg, s, s1, id);
    StatusOnly(s1, id, Checked(s1.crs[id].status, None, RestoreAccepted, InvalidRestoreSpec));
    var s2 := ValidateRestoreStep(cfg, s1, id).store;
    StatusOnly(s2, id, s2.crs[id].status.(uuid := Generated(id.ns, id.name, token)));
    var s3 := RestoreUuidStep(s2, id, token).store;
    FinalizerOnly(s3, id);
    OnlyMineTransitive(s, s1, s2, id);
    OnlyMineTransitive(s, s2, s3, id);
    OnlyMineTransitive(s, s3, FinalizerStep(s3, id).store, id);
  }

  lemma RestoreValidityMine(cfg: Config, s: Store, t: Store, id: Id)
    requires OnlyMine(s, t, id) && id.kind == NAR
    ensures RestoreError(cfg, t, id.ns, s.crs[id].spec.fields) == RestoreError(cfg, s, id.ns, s.crs[id].spec.fields)
    ensures t.crs[id].spec == s.crs[id].spec
  {
    RestoreValidityFrame(cfg, s, t, id.ns, s.crs[id].spec.fields);
  }

  /** The Velero restore is of the backup the spec names, into the user's own namespace. */
  ghost predicate RestoreToOrder(cfg: Config, s: Store, id: Id, fields: Fields, o: Owned) {
    var backup := Id(NAB, id.ns, StrOf(fields, BackupName));
    && backup in s.crs && s.crs[backup].status.uuid != "" && o.body.Restore? && !o.body.completed && o.body.created == s.clock
    && o.annotations == OwnerAnnotations(id)
    && o.body.fields == RestoreFields(cfg.enforcedRestore, fields, id.ns, s.crs[backup].status.uuid)
  }

  lemma RestoreStepFinishes(cfg: Config, s: Store, id: Id)
    requires id in s.crs && id.kind == NAR && s.crs[id].finalizer && RestoreStep(cfg, s, id).outcome == Continue
    requires Accepted in s.crs[id].status.conds && s.crs[id].status.conds[Accepted] == Condition(true, RestoreAccepted, NoMessage)
    requires var ref := Ref(RESTORE, s.crs[id].status.uuid);
             Found(s, RESTORE, ref.name) == if ref in s.owned then {ref} else {}
    ensures var t, ref := RestoreStep(cfg, s, id).store, Ref(RESTORE, s.crs[id].status.uuid);
            && Finished(t, id, RESTORE, RestoreAccepted, RestoreScheduled)
            && t.crs[id].status.uuid == ref.name && t.crs[id].spec == s.crs[id].spec
            && (forall i: Id | i != id :: SameCr(s, t, i))
            && (forall r: Ref | r != ref :: (r in s.owned <==> r in t.owned) && (r in s.owned ==> s.owned[r] == t.owned[r]))
            && (if ref in s.owned then t.owned[ref] == s.owned[ref]
                else RestoreToOrder(cfg, s, id, s.crs[id].spec.fields, t.owned[ref]) && !IsTrue(s.crs[id].status.conds, Queued))
  {
    hide RestoreFields, DoWriteStatus, Queue.Position;
    var ref, st := Ref(RESTORE, s.crs[id].status.uuid), s.crs[id].status;
    OnlyMember(ref);
    var t := RestoreStep(cfg, s, id).store;
    if ref in s.owned {
      StatusWritten(s, id, Recorded(st, Some(Queue.Position(s.owned, RESTORE, s.owned[ref])), s.owned[ref].body, RestoreScheduled));
      SameFound(s, t, RESTORE, ref.name);
    } else {
      var backup := Id(NAB, id.ns, StrOf(s.crs[id].spec.fields, BackupName));
      var fields := RestoreFields(cfg.enforcedRestore, s.crs[id].spec.fields, id.ns, s.crs[backup].status.uuid);
      var o := Stamped(s, NewObject(id, ref.name, Restore(fields, 0, false, 0)));
      var s1 := DoPut(s, ref, o);
      PutIsFound(s, ref, o);
      var made := s1.owned[ref];
      StatusWritten(s1, id, Recorded(st, Some(Queue.Position(s1.owned, RESTORE, made)), made.body, RestoreScheduled));
      SameFound(s1, t, RESTORE, ref.name);
      forall i: Id | i != id ensures SameCr(s, t, i) {
        assert SameCr(s1, t, i);
      }
    }
  }

  lemma RestoreContinuesIfValid(cfg: Config, s: Store, id: Id, token: string)
    requires id in s.crs && id.kind == NAR && |token| == UuidLength && RestorePass(cfg, s, id, token).outcome == Continue
    ensures RestoreError(cfg, s, id.ns, s.crs[id].spec.fields).None?
  {
    hide RestoreError, RestoreStep, DoWriteStatus;
    StatusOnly(s, id, s.crs[id].status.(phase := New));
    RestoreValidityMine(cfg, s, InitStep(s, id).store, id);
  }

  lemma RestorePassEnds(cfg: Config, s: Store, id: Id, token: string)
    requires Inv(cfg, s) && !cfg.staleReads && id in s.crs && id.kind == NAR && |token| == UuidLength
    requires s.crs[id].status.uuid == "" ==> TokenFree(s, token)
    requires RestorePass(cfg, s, id, token).outcome == Continue
    ensures var t := RestorePass(cfg, s, id, token).store;
            var ref := Ref(RESTORE, t.crs[id].status.uuid);
            && Finished(t, id, RESTORE, RestoreAccepted, RestoreScheduled) && ref in t.owned
            && t.crs[id].status.uuid == NacuuidAfter(s, id, token)
            && RestoreError(cfg, t, id.ns, t.crs[id].spec.fields).None?
            && (if ref in s.owned then t.owned == s.owned
                else RestoreToOrder(cfg, s, id, s.crs[id].spec.fields, t.owned[ref]) && t.owned.Keys == s.owned.Keys + {ref})
  {
    hide Inv, RestoreError, RestorePass, RestoreStep, PreparingRestore, Found, TokenFree, RestoreFields, Finished, RestoreToOrder,
         OnlyMine, NamesOrigin;
    RestoreContinuesIfValid(cfg, s, id, token);
    NamedOrNothing(cfg, s, id, RESTORE, token);
    PreparingRestorePrepares(cfg, s, id, token);
    var s4 := PreparingRestore(cfg, s, id, token);
    OnlyMineMeans(s, s4, id);
    SameFound(s, s4, RESTORE, s4.crs[id].status.uuid);
    RestoreStepFinishes(cfg, s4, id);
    var t := RestorePass(cfg, s, id, token).store;
    RestoreValidityFrame(cfg, s, s4, id.ns, s.crs[id].spec.fields);
    RestoreValidityFrame(cfg, s4, t, id.ns, s.crs[id].spec.fields);
    FinishedRestoreIsThere(t, id);
    var ref := Ref(RESTORE, t.crs[id].status.uuid);
    SameButOne(s.owned, t.owned, ref);
    RestoreAlike(cfg, s4, s, id, s.crs[id].spec.fields, t.owned[ref]);
  }

  lemma FinishedRestoreIsThere(s: Store, id: Id)
    requires Finished(s, id, RESTORE, RestoreAccepted, RestoreScheduled)
    ensures Ref(RESTORE, s.crs[id].status.uuid) in s.owned
  {
  }

  lemma RestoreAlike(cfg: Config, s: Store, t: Store, id: Id, fields: Fields, o: Owned)
    requires id.kind == NAR && s.clock == t.clock && forall i: Id | i != id :: SameCr(t, s, i)
    ensures RestoreToOrder(cfg, s, id, fields, o) == RestoreToOrder(cfg, t, id, fields, o)
  {
    assert SameCr(t, s, Id(NAB, id.ns, StrOf(fields, BackupName)));
  }

  /** The same for restores: a finished pass has made the Velero restore to order, if there was
      none, and the next undisturbed pass writes nothing. */
  lemma RestorePassSettles(cfg: Config, s: Store, id: Id, token1: string, token2: string)
    requires Inv(cfg, s) && !cfg.staleReads && id in s.crs && id.kind == NAR && |token1| == |token2| == UuidLength
    requires s.crs[id].status.uuid == "" ==> TokenFree(s, token1)
    ensures RestorePass(cfg, s, id, token1).outcome == Continue ==>
              var t := RestorePass(cfg, s, id, token1).store;
              var ref := Ref(RESTORE, t.crs[id].status.uuid);
              && Finished(t, id, RESTORE, RestoreAccepted, RestoreScheduled) && ref in t.owned
              && (if ref in s.owned then t.owned == s.owned
                  else RestoreToOrder(cfg, s, id, s.crs[id].spec.fields, t.owned[ref]) && t.owned.Keys == s.owned.Keys + {ref})
              && RestorePass(cfg, t, id, token2) == Out(t, Continue)
  {
    hide *;
    if RestorePass(cfg, s, id, token1).outcome == Continue {
      RestorePassEnds(cfg, s, id, token1);
      FinishedRestoreIsIdle(cfg, RestorePass(cfg, s, id, token1).store, id, token2);
    }
  }
}
