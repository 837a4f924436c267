/**
 What a pass over a backup or a restore leaves, said of the stored objects themselves: what the
 status says and what Velero's object is made of, case by case.
 */
module ObjectOutcomes {
  import opened Objects
  import opened Specs
  import opened Cluster
  import opened Protocol
  import opened Interference
  import opened ApiClient
  import opened Steps
  import opened NabPass
  import opened NarPass
  import opened Naming
  import opened Settling
  import Queue
  import Deletion

  // ---- Validation ----

  /** A backup may use a location if and only if the user's location is created and Velero's, kept
      under its NACUUID, is available. */
  lemma LocationUsableIff(cfg: Config, s: Store, ns: string, name: string)
    requires Inv(cfg, s) && !cfg.staleReads
    ensures var id := Id(NABSL, ns, name);
            LocationUsable(s, ns, name) <==>
              && id in s.crs && s.crs[id].status.phase == Created && s.crs[id].status.uuid != ""
              && var ref := Ref(BSL, s.crs[id].status.uuid);
                 ref in s.owned && s.owned[ref].body.Location? && s.owned[ref].body.available
  {
    hide Inv;
    var id := Id(NABSL, ns, name);
    if id in s.crs && s.crs[id].status.uuid != "" {
      var uuid := s.crs[id].status.uuid;
      CarrierIsIssuedTo(cfg, s, id);
      NoneFoundNoneNamed(cfg, s, id, BSL, uuid);
      AtMostOneFound(cfg, s, BSL, uuid);
      FoundIsThere(s, BSL, uuid);
      OnlyMember(Ref(BSL, uuid));
    }
  }

  /** A backup spec that breaks any rule ends the pass there. */
  lemma InvalidBackupIsRejected(cfg: Config, s: Store, id: Id, token: string)
    requires ValidConfig(cfg) && id in s.crs && id.kind == NAB && |token| == UuidLength
    requires !FineBackupSpec(cfg, s, id.ns, s.crs[id].spec.fields)
    ensures var out := CreatePass(cfg, s, id, token);
            out.outcome == Failed && IsRejected(s, out.store, id, InvalidBackupSpec)
  {
    hide BackupError, FineBackupSpec, DoWriteStatus, SyncPass;
    BackupSpecValidIff(cfg, s, id.ns, s.crs[id].spec.fields);
    StatusWritten(s, id, s.crs[id].status.(phase := New));
    var s1 := InitStep(s, id).store;
    ValidityFrame(cfg, s, s1, id.ns, s.crs[id].spec.fields);
    RejectedOnTop(s, s1, id, BackupError(cfg, s1, id.ns, s.crs[id].spec.fields).value, BackupAccepted, InvalidBackupSpec);
  }

  /** The same for restores. */
  lemma InvalidRestoreIsRejected(cfg: Config, s: Store, id: Id, token: string)
    requires ValidConfig(cfg) && id in s.crs && id.kind == NAR && |token| == UuidLength
    requires !FineRestoreSpec(cfg, s, id.ns, s.crs[id].spec.fields)
    ensures var out := RestorePass(cfg, s, id, token);
            out.outcome == Failed && IsRejected(s, out.store, id, InvalidRestoreSpec)
  {
    hide RestoreError, FineRestoreSpec, DoWriteStatus, RestoreStep, FinalizerStep, RestoreUuidStep;
    RestoreSpecValidIff(cfg, s, id.ns, s.crs[id].spec.fields);
    StatusWritten(s, id, s.crs[id].status.(phase := New));
    var s1 := InitStep(s, id).store;
    RestoreValidityFrame(cfg, s, s1, id.ns, s.crs[id].spec.fields);
    RejectedOnTop(s, s1, id, RestoreError(cfg, s1, id.ns, s.crs[id].spec.fields).value, RestoreAccepted, InvalidRestoreSpec);
  }

  lemma RejectedOnTop(s: Store, s1: Store, id: Id, m: Message, accepted: Reason, invalid: Reason)
    requires id in s.crs && id in s1.crs && s1.owned == s.owned && (forall i: Id | i != id :: SameCr(s, s1, i))
    requires s1.crs[id].spec == s.crs[id].spec && s1.crs[id].status.uuid == s.crs[id].status.uuid
    requires s1.crs[id].finalizer == s.crs[id].finalizer
    ensures IsRejected(s, DoWriteStatus(s1, id, Checked(s1.crs[id].status, Some(m), accepted, invalid)), id, invalid)
  {
    hide DoWriteStatus;
    StatusWritten(s1, id, Checked(s1.crs[id].status, Some(m), accepted, invalid));
    var t := DoWriteStatus(s1, id, Checked(s1.crs[id].status, Some(m), accepted, invalid));
    forall i: Id | i != id ensures SameCr(s, t, i) {
      assert SameCr(s, s1, i) && SameCr(s1, t, i);
    }
  }

  // ---- What is made ----

  /** The status of a finished object: named, accepted, queued, and showing Velero's object. */
  predicate ShowsObject(st: Status, uuid: string, accepted: Reason, scheduled: Reason, mirror: Body, position: nat) {
    && st.uuid == uuid && st.phase == Created && Says(st, Accepted, true, accepted) && Says(st, Queued, true, scheduled)
    && st.mirror == Some(mirror) && st.queue == Some(position)
  }

  /** A finished pass over an accepted backup that had no Velero backup yet: what was made is, in
      every field, what the user asked for, else what is enforced, in the user's own namespace, in
      the Velero location of the user's own location of that name; and the status shows it. */
  lemma BackupIsMadeAsAsked(cfg: Config, s: Store, id: Id, token: string)
    requires Inv(cfg, s) && !cfg.staleReads && id in s.crs && id.kind == NAB && |token| == UuidLength && s.crs[id].sync.None?
    requires s.crs[id].status.uuid == "" ==> TokenFree(s, token)
    requires CreatePass(cfg, s, id, token).outcome == Continue
    ensures var t, user := CreatePass(cfg, s, id, token).store, s.crs[id].spec.fields;
            var uuid := if s.crs[id].status.uuid == "" then Generated(id.ns, id.name, token) else s.crs[id].status.uuid;
            var ref := Ref(BACKUP, uuid);
            var asked := AskedStr(cfg.enforcedBackup, user, StorageLocation);
            && ref in t.owned
            && (t.owned[ref].body.Backup? ==>
                  ShowsObject(t.crs[id].status, uuid, BackupAccepted, BackupScheduled,
                              Backup(t.owned[ref].body.fields, 0, t.owned[ref].body.completed, t.owned[ref].body.progress),
                              Queue.Position(t.owned, BACKUP, t.owned[ref])))
            && (ref !in s.owned ==>
                  && t.owned[ref].body.Backup? && !t.owned[ref].body.completed && t.owned[ref].body.created == s.clock
                  && (asked != "" ==> Id(NABSL, id.ns, asked) in s.crs && s.crs[Id(NABSL, id.ns, asked)].status.uuid != "")
                  && BackupAsAsked(t.owned[ref].body.fields, cfg.enforcedBackup, user, id.ns,
                                   if asked == "" then "" else s.crs[Id(NABSL, id.ns, asked)].status.uuid))
  {
    hide Inv, BackupError, CreatePass, TokenFree, BackupFields, Finished, MadeToOrder, ShowsObject, BackupAsAsked, Queue.Position,
         Generated;
    BackupPassEnds(cfg, s, id, token);
    var t := CreatePass(cfg, s, id, token).store;
    var ref := Ref(BACKUP, t.crs[id].status.uuid);
    FinishedShows(t, id, BACKUP, BackupAccepted, BackupScheduled);
    if ref !in s.owned {
      MadeAsAsked(cfg, s, id, s.crs[id].spec.fields, t.owned[ref]);
    }
  }

  lemma FinishedShows(t: Store, id: Id, kind: OwnedKind, accepted: Reason, scheduled: Reason)
    requires Finished(t, id, kind, accepted, scheduled)
    ensures var ref := Ref(kind, t.crs[id].status.uuid);
            && ref in t.owned
            && ShowsObject(t.crs[id].status, ref.name, accepted, scheduled, MirrorOf(t.owned[ref].body),
                           Queue.Position(t.owned, kind, t.owned[ref]))
  {
    hide Queue.Position, MirrorOf;
  }

  lemma MadeAsAsked(cfg: Config, s: Store, id: Id, fields: Fields, o: Owned)
    requires MadeToOrder(cfg, s, id, fields, o)
    ensures var asked := AskedStr(cfg.enforcedBackup, fields, StorageLocation);
            && o.body.Backup? && !o.body.completed && o.body.created == s.clock
            && (asked != "" ==> Id(NABSL, id.ns, asked) in s.crs && s.crs[Id(NABSL, id.ns, asked)].status.uuid != "")
            && BackupAsAsked(o.body.fields, cfg.enforcedBackup, fields, id.ns,
                             if asked == "" then "" else s.crs[Id(NABSL, id.ns, asked)].status.uuid)
  {
    hide BackupFields, BackupAsAsked;
    MergedIsTaken(cfg.enforcedBackup, fields);
    BackupIsAsAsked(cfg.enforcedBackup, fields, id.ns, VeleroLocation(cfg, s, id.ns, fields).value);
  }

  /** The same for restores: of Velero's backup of the user's backup it names. */
  lemma RestoreIsMadeAsAsked(cfg: Config, s: Store, id: Id, token: string)
    requires Inv(cfg, s) && !cfg.staleReads && id in s.crs && id.kind == NAR && |token| == UuidLength
    requires s.crs[id].status.uuid == "" ==> TokenFree(s, token)
    requires RestorePass(cfg, s, id, token).outcome == Continue
    ensures var t, user := RestorePass(cfg, s, id, token).store, s.crs[id].spec.fields;
            var uuid := if s.crs[id].status.uuid == "" then Generated(id.ns, id.name, token) else s.crs[id].status.uuid;
            var ref, backup := Ref(RESTORE, uuid), Id(NAB, id.ns, StrOf(user, BackupName));
            && ref in t.owned
            && (t.owned[ref].body.Restore? ==>
                  ShowsObject(t.crs[id].status, uuid, RestoreAccepted, RestoreScheduled,
                              Restore(map[], 0, t.owned[ref].body.completed, t.owned[ref].body.progress),
                              Queue.Position(t.owned, RESTORE, t.owned[ref])))
            && (ref !in s.owned ==>
                  && backup in s.crs && s.crs[backup].status.uuid != ""
                  && t.owned[ref].body.Restore? && !t.owned[ref].body.completed && t.owned[ref].body.created == s.clock
                  && RestoreAsAsked(t.owned[ref].body.fields, cfg.enforcedRestore, user, id.ns, s.crs[backup].status.uuid))
  {
    hide Inv, RestoreError, RestorePass, TokenFree, RestoreFields, Finished, ShowsObject, RestoreAsAsked, Queue.Position,
         Generated;
    RestorePassEnds(cfg, s, id, token);
    var t := RestorePass(cfg, s, id, token).store;
    var ref, backup := Ref(RESTORE, t.crs[id].status.uuid), Id(NAB, id.ns, StrOf(s.crs[id].spec.fields, BackupName));
    FinishedShows(t, id, RESTORE, RestoreAccepted, RestoreScheduled);
    if ref !in s.owned {
      RestoreIsAsAsked(cfg.enforcedRestore, s.crs[id].spec.fields, id.ns, s.crs[backup].status.uuid);
    }
  }

  /** An object that was brought back, or was created before, and whose Velero backup is gone is not
      given another: the status says what was lost. */
  lemma LostBackupBacksOff(cfg: Config, s: Store, id: Id)
    requires id in s.crs && s.crs[id].status.uuid != "" && Found(s, BACKUP, s.crs[id].status.uuid) == {}
    requires (s.crs[id].sync.Some? && 0 < |s.crs[id].sync.value| < 253) || s.crs[id].status.phase == Created
    ensures var out := BackupStep(cfg, s, id);
            var st := out.store.crs[id].status;
            && out.outcome == Failed && out.store.owned == s.owned && st.phase == BackingOff
            && Says(st, Accepted, false, VeleroBackupNotFound) && st.uuid == s.crs[id].status.uuid
            && (Says(s.crs[id].status, Queued, true, BackupScheduled) ==> st.conds[Accepted].message == BackupRemoved)
  {
    hide DoWriteStatus, Found;
    StatusWritten(s, id, BackupLost(s.crs[id].status));
  }

  /** Nothing is reported lost for an object without a valid sync label that was not created yet:
      its backup is made, or the pass fails without a word. */
  lemma OnlyValidLabelsSync(cfg: Config, s: Store, id: Id)
    requires id in s.crs && s.crs[id].status.uuid != "" && Found(s, BACKUP, s.crs[id].status.uuid) == {}
    requires s.crs[id].sync.None? || |s.crs[id].sync.value| == 0 || |s.crs[id].sync.value| >= 253
    requires s.crs[id].status.phase != Created
    ensures var out := BackupStep(cfg, s, id);
            if out.outcome == Continue then Ref(BACKUP, s.crs[id].status.uuid) in out.store.owned else out.store == s
  {
    hide Found, BackupFields, Queue.Position;
  }

  /** A backup under the NACUUID that names another namespace is refused, and without the location
      asked for none is made. */
  lemma OthersBackupIsRefused(cfg: Config, s: Store, id: Id)
    requires id in s.crs && s.crs[id].status.uuid != ""
    ensures forall ref | Found(s, BACKUP, s.crs[id].status.uuid) == {ref} ::
              !HasValue(s.owned[ref].annotations, OriginNamespace(NAB), id.ns) ==> BackupStep(cfg, s, id) == Out(s, Failed)
    ensures var asked := AskedStr(cfg.enforcedBackup, s.crs[id].spec.fields, StorageLocation);
            Found(s, BACKUP, s.crs[id].status.uuid) == {} && s.crs[id].sync.None? && s.crs[id].status.phase != Created
            && asked != "" && (Id(NABSL, id.ns, asked) !in s.crs || s.crs[Id(NABSL, id.ns, asked)].status.uuid == "") ==>
              BackupStep(cfg, s, id) == Out(s, Failed)
  {
    hide Found, BackupFields;
    forall ref { OnlyMember(ref); }
    MergedIsTaken(cfg.enforcedBackup, s.crs[id].spec.fields);
  }

  /** A restore of a backup that is not there, or has no Velero backup yet, is not made. */
  lemma RestoreNeedsItsBackup(cfg: Config, s: Store, id: Id)
    requires id in s.crs && s.crs[id].status.uuid != "" && Found(s, RESTORE, s.crs[id].status.uuid) == {}
    requires !IsTrue(s.crs[id].status.conds, Queued)
    ensures var backup := Id(NAB, id.ns, StrOf(s.crs[id].spec.fields, BackupName));
            backup !in s.crs || s.crs[backup].status.uuid == "" ==> RestoreStep(cfg, s, id) == Out(s, Failed)
  {
    hide Found, RestoreFields;
  }

  // ---- Deletion ----

  /** What the status of an object says while it is being deleted. */
  predicate SaysDeleting(st: Status, message: Message) {
    && st.phase == Deleting && Says(st, BeingDeleted, true, DeletionPending) && st.conds[BeingDeleted].message == message
  }

  /** After any pass over an object whose deletion is requested the status, if there still is one,
      says so and on which path, and for a backup deleted with its data how its delete request fares. */
  lemma DeletingIsSaid(s: Store, id: Id, token: string, t: Store)
    requires id in s.crs && Deletion.Requested(s, id) && id.kind != NABSL && Deletion.PassEnds(s, id, token, t)
    ensures id in t.crs ==>
              SaysDeleting(t.crs[id].status,
                           if id.kind == NAB && !s.crs[id].spec.deleteBackup then DirectDeletion else AcceptedForDeletion)
  {
    hide DoWriteStatus, Found, DeleteRequests, DependentsDeleted, DoRemove;
    var direct := id.kind == NAB && !s.crs[id].spec.deleteBackup;
    var st := Marked(s.crs[id].status, if direct then DirectDeletion else AcceptedForDeletion);
    StatusWritten(s, id, st);
    var s1 := DoWriteStatus(s, id, st);
    if Deletion.Permanent(s, id) {
      AfterMarking(s1, id);
      if s.crs[id].deleting {
        var mid :| DependentsDeleted(s1, mid, id, {}) && id in mid.crs && t == AskStep(mid, id, token).store;
        DependentsAre(s1, mid, id);
        AskKeepsSaying(mid, id, token, AcceptedForDeletion);
      }
    } else {
      forall ref ensures DoRemove(s1, ref).crs == s1.crs { RemovalLeavesCrs(s1, ref); }
      var s2 := DropRequestStep(s1, id).store;
      forall ref ensures DoRemove(s2, ref).crs == s2.crs { RemovalLeavesCrs(s2, ref); }
      FinalizerKeepsSaying(s2, id);
      FinalizerKeepsSaying(s1, id);
    }
  }

  lemma RemovalLeavesCrs(s: Store, ref: Ref)
    ensures DoRemove(s, ref).crs == s.crs
  {
  }

  lemma FinalizerKeepsSaying(s: Store, id: Id)
    ensures var t := DoWriteFinalizer(s, id, false); id in t.crs ==> id in s.crs && t.crs[id].status == s.crs[id].status
  {
  }

  lemma AfterMarking(s: Store, id: Id)
    requires id in s.crs
    ensures id in DoDelete(s, id).crs ==> DoDelete(s, id).crs[id].status == s.crs[id].status
  {
  }

  lemma AskKeepsSaying(s: Store, id: Id, token: string, message: Message)
    requires id in s.crs && SaysDeleting(s.crs[id].status, message)
    ensures var t := AskStep(s, id, token).store; id in t.crs ==> SaysDeleting(t.crs[id].status, message)
  {
    hide Found, DeleteRequests, DoWriteStatus;
    FinalizerKeepsSaying(s, id);
    forall body ensures SaysDeleting(WithOutcome(s.crs[id].status, body), message) {}
    forall st ensures id in DoWriteStatus(s, id, st).crs && DoWriteStatus(s, id, st).crs[id].status == st { StatusWritten(s, id, st); }
  }

  /** A pass that finds the delete request there shows its outcome in the status. */
  lemma OutcomeIsShown(s: Store, id: Id, token: string)
    requires id in s.crs && s.crs[id].finalizer && s.crs[id].status.uuid != ""
    requires Found(s, BACKUP, s.crs[id].status.uuid) == {Ref(BACKUP, s.crs[id].status.uuid)}
    requires |DeleteRequests(s, s.crs[id].status.uuid)| == 1
    requires s.owned[Only(DeleteRequests(s, s.crs[id].status.uuid))].body.Deletion?
    ensures var t, body := AskStep(s, id, token).store, s.owned[Only(DeleteRequests(s, s.crs[id].status.uuid))].body;
            && id in t.crs && t.owned == s.owned
            && (if t.crs[id].status.deletion.Some? then t.crs[id].status.deletion.value else 0) == body.outcome
  {
    hide Found, DeleteRequests, DoWriteStatus;
    OnlyMember(Ref(BACKUP, s.crs[id].status.uuid));
    Deletion.OneRequest(s, s.crs[id].status.uuid);
    StatusWritten(s, id, WithOutcome(s.crs[id].status, s.owned[Only(DeleteRequests(s, s.crs[id].status.uuid))].body));
  }
}
