/**
 The other direction for the backup and restore controllers: an undisturbed pass, creating or
 deleting, is itself a piece of a run.
 */
module ObjectRuns {
  import opened Objects
  import opened Specs
  import opened Cluster
  import opened Protocol
  import opened Interference
  import opened ApiClient
  import opened Steps
  import opened NabPass
  import opened NarPass
  import opened Naming
  import opened Reach
  import Deletion
  import Queue

  /** What a lookup finds of the Velero object and its delete request. */
  lemma VeleroObject(cfg: Config, s: Store, id: Id)
    requires Ready(cfg, s, id) && id.kind != NABSL && s.crs[id].status.uuid != ""
    ensures var ref := Deletion.VeleroRef(s, id);
            && Found(s, ref.kind, ref.name) == (if ref in s.owned then {ref} else {})
            && (ref in s.owned ==> |Found(s, ref.kind, ref.name)| == 1 && Only(Found(s, ref.kind, ref.name)) == ref)
            && |DeleteRequests(s, ref.name)| <= 1
            && (ref !in s.owned ==> NothingProtected(cfg.reimports, s.owned, id, ref.name))
  {
    hide Inv, DeleteRequests, Found;
    var ref := Deletion.VeleroRef(s, id);
    FoundIsRef(cfg, s, id, ref.kind);
    OneRequestAtMost(cfg, s, ref.name);
    if ref !in s.owned {
      OnlyVeleroObject(cfg, s, id, ref);
    }
  }

  lemma OneRequestAtMost(cfg: Config, s: Store, uuid: string)
    requires Inv(cfg, s) && !cfg.staleReads && uuid in s.issued
    ensures |DeleteRequests(s, uuid)| <= 1
  {
    hide CrsOk, NamesOk, IssuedNames, BackupsOk, OwnersOk, RequestsOk, PlainOk, FrozenOk, VersionsOk, SyncLabelsOk, OwnUuids;
    Deletion.AtMostOneRequest(s, uuid);
  }

  lemma OnlyVeleroObject(cfg: Config, s: Store, id: Id, ref: Ref)
    requires id.kind != NABSL && ref.kind == Deletion.VeleroKind(id.kind) && ref !in s.owned
    ensures NothingProtected(cfg.reimports, s.owned, id, ref.name)
  {
    forall r | r in s.owned && Guarded(cfg.reimports, r.kind) && OwnerKind(r.kind) == id.kind ensures r.name != ref.name {
      assert r.kind == ref.kind;
    }
  }

  // ---- Deleting ----

  lemma MarkStepReaches(cfg: Config, s: Store, id: Id)
    requires Ready(cfg, s, id) && id.kind != NABSL
    ensures var out := MarkStep(s, id);
            && Reaches(cfg, s, out.store)
            && (out.outcome == Continue ==>
                  Held(cfg, out.store, id) && out.store.crs[id].deleting && out.store.owned == s.owned
                  && out.store.issued == s.issued && out.store.crs[id].status.uuid == s.crs[id].status.uuid)
  {
    hide Inv, Reaches, DoWriteStatus, DoDelete;
    ReadyShape(cfg, s, id);
    ReachesItself(cfg, s);
    var st := Marked(s.crs[id].status, AcceptedForDeletion);
    WriteReaches(cfg, s, s, id, st);
    var s1 := DoWriteStatus(s, id, st);
    StepReaches(cfg, s1, Step(Worker(id), Delete(id)));
    ReachesOn(cfg, s, s1, DoDelete(s1, id));
  }

  /** The dependents are deleted one after the other. */
  ghost function DeleteAll(s: Store, rest: set<Id>): Store
    decreases rest
  {
    if rest == {} then s
    else
      var id :| id in rest;
      DeleteAll(DoDelete(s, id), rest - {id})
  }

  lemma {:induction false} DeleteAllReaches(cfg: Config, s0: Store, s: Store, parent: Id, rest: set<Id>)
    requires Inv(cfg, s0) && Reaches(cfg, s0, s) && parent in s.crs
    requires DependentsDeleted(s0, s, parent, rest)
    requires forall id | id in rest :: id in s0.crs && DependsOn(id, s0.crs[id], parent)
    ensures var t := DeleteAll(s, rest);
            Reaches(cfg, s0, t) && DependentsDeleted(s0, t, parent, {}) && parent in t.crs
    decreases rest
  {
    if rest != {} {
      hide Inv, Reaches, DependentsDeleted, DoDelete;
      var id :| id in rest && DeleteAll(s, rest) == DeleteAll(DoDelete(s, id), rest - {id});
      StepReaches(cfg, s, Step(Worker(parent), Delete(id)));
      ReachesOn(cfg, s0, s, DoDelete(s, id));
      OneMoreDeleted(s0, s, parent, rest, id);
      OthersStay(s, id);
      assert id != parent;
      DeleteAllReaches(cfg, s0, DoDelete(s, id), parent, rest - {id});
    }
  }

  lemma OthersStay(s: Store, id: Id)
    ensures forall i: Id | i != id && i in s.crs :: i in DoDelete(s, id).crs
  {
  }

  /** A store that deleting the dependents really ends in. */
  ghost function DependentsGone(s: Store, parent: Id): Store {
    DeleteAll(s, set id | id in s.crs && DependsOn(id, s.crs[id], parent))
  }

  lemma DependentsGoneReaches(cfg: Config, s: Store, parent: Id)
    requires Inv(cfg, s) && parent in s.crs
    ensures var t := DependentsGone(s, parent);
            Reaches(cfg, s, t) && DependentsDeleted(s, t, parent, {}) && parent in t.crs
  {
    hide Inv, Reaches;
    ReachesItself(cfg, s);
    DeleteAllReaches(cfg, s, s, parent, set id | id in s.crs && DependsOn(id, s.crs[id], parent));
  }

  lemma AskReaches(cfg: Config, s: Store, id: Id, token: string)
    requires Held(cfg, s, id) && id.kind != NABSL && s.crs[id].deleting && id.kind == NAB && TokenFree(s, token)
    ensures Reaches(cfg, s, AskStep(s, id, token).store)
  {
    hide Inv, Reaches, Found, DoWriteStatus, TokenFree, DoPut, DoWriteFinalizer, DeleteRequests;
    ReachesItself(cfg, s);
    ReadyShape(cfg, s, id);
    VeleroObject(cfg, s, id);
    var uuid, ref := s.crs[id].status.uuid, Deletion.VeleroRef(s, id);
    if ref in s.owned {
      if |DeleteRequests(s, uuid)| == 1 {
        Deletion.OneRequest(s, uuid);
        OutcomeReaches(cfg, s, id, s.owned[Only(DeleteRequests(s, uuid))].body);
      } else {
        FreshRequest(s, uuid, token);
        RequestReaches(cfg, s, id, token);
      }
    } else {
      StepReaches(cfg, s, Step(Worker(id), WriteFinalizer(id, false)));
    }
  }

  lemma OutcomeReaches(cfg: Config, s: Store, id: Id, body: Body)
    requires Ready(cfg, s, id) && id.kind != NABSL
    ensures Reaches(cfg, s, DoWriteStatus(s, id, WithOutcome(s.crs[id].status, body)))
  {
    hide Inv, Reaches;
    ReadyShape(cfg, s, id);
    StatusReaches(cfg, s, id, WithOutcome(s.crs[id].status, body));
  }

  lemma RequestReaches(cfg: Config, s: Store, id: Id, token: string)
    requires Held(cfg, s, id) && id.kind == NAB && TokenFree(s, token) && DeleteRequests(s, s.crs[id].status.uuid) == {}
    requires DeleteRequestRef(s.crs[id].status.uuid, token) !in s.owned
    ensures var uuid := s.crs[id].status.uuid;
            Reaches(cfg, s, DoPut(s, DeleteRequestRef(uuid, token), DeleteRequest(id, uuid, uuid)))
  {
    hide Inv, Reaches, EndsWith;
    var uuid := s.crs[id].status.uuid;
    var ref := DeleteRequestRef(uuid, token);
    FreshRequest(s, uuid, token);
    forall r | r in s.owned && r.kind == DELETION ensures !HasValue(s.owned[r].labels, BackupNameLabel, uuid) {
      assert r !in DeleteRequests(s, uuid);
    }
    StepReaches(cfg, s, Step(Worker(id), Put(ref, DeleteRequest(id, uuid, uuid))));
  }

  lemma FreshRequest(s: Store, uuid: string, token: string)
    requires TokenFree(s, token)
    ensures var ref := DeleteRequestRef(uuid, token);
            EndsWith(ref.name, token) && ref !in s.owned && ref.name !in s.issued
  {
    assert EndsWith(uuid + "-" + token, token);
  }

  lemma SameNamesKeepToken(s: Store, t: Store, token: string)
    requires TokenFree(s, token) && t.owned == s.owned && t.issued == s.issued
    ensures TokenFree(t, token)
  {
  }

  /** Every undisturbed pass over an object being deleted may end somewhere a run leads. */
  lemma DeletingPassIsRun(cfg: Config, s: Store, id: Id, token: string)
    requires Ready(cfg, s, id) && id.kind != NABSL && Deletion.Requested(s, id) && TokenFree(s, token)
    ensures exists t :: Deletion.PassEnds(s, id, token, t) && Reaches(cfg, s, t)
  {
    hide Inv, Reaches, TokenFree, MarkStep, AskStep, DirectPass, RestoreDeletePass, DependentsDeleted, DependentsGone;
    if Deletion.Permanent(s, id) {
      StandardPassReaches(cfg, s, id, token);
    } else if id.kind == NAB {
      DirectPassReaches(cfg, s, id);
      assert Deletion.PassEnds(s, id, token, DirectPass(s, id).store);
    } else {
      RestoreDeletePassReaches(cfg, s, id);
      assert Deletion.PassEnds(s, id, token, RestoreDeletePass(s, id).store);
    }
  }

  lemma StandardPassReaches(cfg: Config, s: Store, id: Id, token: string)
    requires Ready(cfg, s, id) && id.kind != NABSL && Deletion.Permanent(s, id) && TokenFree(s, token)
    ensures exists t :: Deletion.PassEnds(s, id, token, t) && Reaches(cfg, s, t)
  {
    hide Inv, Reaches, TokenFree, MarkStep, AskStep, DependentsDeleted, DependentsGone;
    var o1 := MarkStep(s, id);
    MarkStepReaches(cfg, s, id);
    if o1.outcome == Continue {
      var mid := DependentsGone(o1.store, id);
      DependentsGoneReaches(cfg, o1.store, id);
      ReachesKeepsInv(cfg, o1.store, mid);
      MarkedParentStays(o1.store, mid, id);
      SameNamesKeepToken(s, mid, token);
      AskReaches(cfg, mid, id, token);
      ReachesOn(cfg, s, o1.store, mid);
      var t := AskStep(mid, id, token).store;
      ReachesOn(cfg, s, mid, t);
      assert Deletion.PassEnds(s, id, token, t);
    } else {
      assert Deletion.PassEnds(s, id, token, o1.store);
    }
  }

  lemma MarkedParentStays(s: Store, t: Store, parent: Id)
    requires DependentsDeleted(s, t, parent, {}) && parent in s.crs && parent in t.crs
    ensures t.crs[parent] == s.crs[parent] && t.owned == s.owned && t.issued == s.issued
  {
    assert !DependsOn(parent, s.crs[parent], parent);
    assert SameCr(s, t, parent);
  }

  lemma LetGoReaches(cfg: Config, s: Store, id: Id)
    requires Held(cfg, s, id) && id.kind != NABSL && s.crs[id].deleting
    ensures Reaches(cfg, s, LetGoStep(s, id, Deletion.VeleroKind(id.kind)).store)
  {
    hide Inv, Reaches, Found, DoRemove, DoWriteFinalizer, DeleteRequests;
    VeleroObject(cfg, s, id);
    var ref := Deletion.VeleroRef(s, id);
    if ref in s.owned {
      StepReaches(cfg, s, Step(Worker(id), Remove(ref)));
    } else {
      StepReaches(cfg, s, Step(Worker(id), WriteFinalizer(id, false)));
    }
  }

  lemma DropRequestReaches(cfg: Config, s: Store, id: Id)
    requires Held(cfg, s, id) && id.kind == NAB
    ensures var t := DropRequestStep(s, id).store; Reaches(cfg, s, t) && Held(cfg, t, id) && t.crs == s.crs
  {
    hide Inv, Reaches, DoRemove;
    ReachesItself(cfg, s);
    var requests := DeleteRequests(s, s.crs[id].status.uuid);
    if |requests| == 1 {
      var ref := Only(requests);
      assert ref in requests;
      StepReaches(cfg, s, Step(Worker(id), Remove(ref)));
      ReachesKeepsInv(cfg, s, DoRemove(s, ref));
      RemovalOnlyLoses(s, ref);
    }
  }

  lemma DirectPassReaches(cfg: Config, s: Store, id: Id)
    requires Ready(cfg, s, id) && id.kind != NABSL && s.crs[id].deleting && id.kind == NAB
    ensures Reaches(cfg, s, DirectPass(s, id).store)
  {
    hide Inv, Reaches, DoWriteStatus, DropRequestStep, LetGoStep;
    ReadyShape(cfg, s, id);
    ReachesItself(cfg, s);
    var st := Marked(s.crs[id].status, DirectDeletion);
    WriteReaches(cfg, s, s, id, st);
    var s1 := DoWriteStatus(s, id, st);
    DropRequestReaches(cfg, s1, id);
    var s2 := DropRequestStep(s1, id).store;
    ReachesOn(cfg, s, s1, s2);
    LetGoReaches(cfg, s2, id);
    ReachesOn(cfg, s, s2, LetGoStep(s2, id, BACKUP).store);
  }

  lemma RestoreDeletePassReaches(cfg: Config, s: Store, id: Id)
    requires Ready(cfg, s, id) && id.kind != NABSL && s.crs[id].deleting && id.kind == NAR
    ensures Reaches(cfg, s, RestoreDeletePass(s, id).store)
  {
    hide Inv, Reaches, DoWriteStatus, LetGoStep;
    ReadyShape(cfg, s, id);
    ReachesItself(cfg, s);
    var st := Marked(s.crs[id].status, AcceptedForDeletion);
    WriteReaches(cfg, s, s, id, st);
    var s1 := DoWriteStatus(s, id, st);
    LetGoReaches(cfg, s1, id);
    ReachesOn(cfg, s, s1, LetGoStep(s1, id, RESTORE).store);
  }

  // ---- Creating ----

  lemma CheckReaches(cfg: Config, s0: Store, s: Store, id: Id, err: Option<Message>, accepted: Reason, invalid: Reason)
    requires Inv(cfg, s0) && Reaches(cfg, s0, s) && Ready(cfg, s, id)
    ensures var t := DoWriteStatus(s, id, Checked(s.crs[id].status, err, accepted, invalid));
            && Reaches(cfg, s0, t) && Ready(cfg, t, id) && t.owned == s.owned && t.issued == s.issued
            && t.crs[id].status.uuid == s.crs[id].status.uuid
  {
    hide Inv, Reaches, DoWriteStatus;
    ReadyShape(cfg, s, id);
    WriteReaches(cfg, s0, s, id, Checked(s.crs[id].status, err, accepted, invalid));
  }

  lemma InitStepReaches(cfg: Config, s: Store, id: Id)
    requires Ready(cfg, s, id) && id.kind != NABSL
    ensures var t := InitStep(s, id).store;
            && Reaches(cfg, s, t) && Ready(cfg, t, id) && t.owned == s.owned && t.issued == s.issued
            && t.crs[id].status.uuid == s.crs[id].status.uuid
  {
    hide Inv, Reaches, DoWriteStatus;
    ReadyShape(cfg, s, id);
    ReachesItself(cfg, s);
    WriteReaches(cfg, s, s, id, s.crs[id].status.(phase := New));
  }

  /** A NACUUID is written, generated or taken from the sync label. */
  lemma NameReaches(cfg: Config, s: Store, id: Id, uuid: string)
    requires Ready(cfg, s, id) && id.kind != NABSL && s.crs[id].status.uuid == "" && uuid != ""
    requires NameUnused(s, uuid) || s.crs[id].sync == Some(uuid)
    ensures var t := DoWriteStatus(s, id, s.crs[id].status.(uuid := uuid));
            Reaches(cfg, s, t) && Ready(cfg, t, id) && t.crs[id].status.uuid == uuid
  {
    hide Inv, Reaches, NameUnused;
    ReadyShape(cfg, s, id);
    StepReaches(cfg, s, Step(Worker(id), WriteStatus(id, s.crs[id].status.(uuid := uuid))));
    ReachesKeepsInv(cfg, s, DoWriteStatus(s, id, s.crs[id].status.(uuid := uuid)));
  }

  lemma GeneratedIsUnused(s: Store, id: Id, token: string)
    requires TokenFree(s, token) && |token| == UuidLength
    ensures Generated(id.ns, id.name, token) != "" && NameUnused(s, Generated(id.ns, id.name, token))
  {
    hide EndsWith;
    GeneratedNameBounds(id.ns, id.name, token);
    FreshNameUnused(s, token, Generated(id.ns, id.name, token));
  }

  lemma HeldReaches(cfg: Config, s: Store, id: Id)
    requires Ready(cfg, s, id) && id.kind != NABSL && s.crs[id].status.uuid != ""
    ensures var t := FinalizerStep(s, id).store; Reaches(cfg, s, t) && Held(cfg, t, id)
  {
    hide Inv, Reaches;
    FinalizerReaches(cfg, s, id);
    ReachesKeepsInv(cfg, s, FinalizerStep(s, id).store);
  }

  /** Velero's object is created under the NACUUID and stamped by the server. */
  lemma VeleroPutReaches(cfg: Config, s: Store, id: Id, body: Body)
    requires Held(cfg, s, id) && id.kind != NABSL && Deletion.VeleroRef(s, id) !in s.owned
    requires id.kind == NAR ==> !IsTrue(s.crs[id].status.conds, Queued)
    ensures var t := DoPut(s, Deletion.VeleroRef(s, id), Stamped(s, NewObject(id, s.crs[id].status.uuid, body)));
            Reaches(cfg, s, t) && Held(cfg, t, id) && t.crs == s.crs
  {
    hide Inv, Reaches;
    var ref, o := Deletion.VeleroRef(s, id), Stamped(s, NewObject(id, s.crs[id].status.uuid, body));
    StepReaches(cfg, s, Step(Worker(id), Put(ref, o)));
    ReachesKeepsInv(cfg, s, DoPut(s, ref, o));
  }

  lemma RecordReaches(cfg: Config, s: Store, id: Id, position: Option<nat>, body: Body, reason: Reason)
    requires Held(cfg, s, id) && id.kind != NABSL
    ensures Reaches(cfg, s, DoWriteStatus(s, id, Recorded(s.crs[id].status, position, body, reason)))
  {
    hide Inv, Reaches, DoWriteStatus, MirrorOf;
    StatusReaches(cfg, s, id, Recorded(s.crs[id].status, position, body, reason));
  }

  lemma LostReaches(cfg: Config, s: Store, id: Id, st: Status)
    requires Held(cfg, s, id) && id.kind != NABSL && (st == BackupLost(s.crs[id].status) || st == RestoreLost(s.crs[id].status))
    ensures Reaches(cfg, s, DoWriteStatus(s, id, st))
  {
    hide Inv, Reaches, DoWriteStatus;
    StatusReaches(cfg, s, id, st);
  }

  lemma BackupReaches(cfg: Config, s: Store, id: Id)
    requires Held(cfg, s, id) && id.kind == NAB
    ensures Reaches(cfg, s, BackupStep(cfg, s, id).store)
  {
    hide Inv, Reaches, Found, DoWriteStatus, DoPut, Stamped, VeleroLocation, Queue.Position, Recorded, DeleteRequests, BackupLost;
    ReachesItself(cfg, s);
    VeleroObject(cfg, s, id);
    var c, ref := s.crs[id], Deletion.VeleroRef(s, id);
    if ref in s.owned {
      RecordReaches(cfg, s, id, Some(Queue.Position(s.owned, BACKUP, s.owned[ref])), s.owned[ref].body, BackupScheduled);
    } else if SyncLabelled(c) || c.status.phase == Created {
      LostReaches(cfg, s, id, BackupLost(c.status));
    } else {
      var location := VeleroLocation(cfg, s, id.ns, c.spec.fields);
      if location.Some? {
        var body := Backup(BackupFields(cfg.enforcedBackup, c.spec.fields, id.ns, location.value), 0, false, 0);
        CreatedReaches(cfg, s, id, body, BackupScheduled);
      }
    }
  }

  lemma CreatedReaches(cfg: Config, s: Store, id: Id, body: Body, reason: Reason)
    requires Held(cfg, s, id) && id.kind != NABSL && Deletion.VeleroRef(s, id) !in s.owned
    requires id.kind == NAR ==> !IsTrue(s.crs[id].status.conds, Queued)
    ensures var ref := Deletion.VeleroRef(s, id);
            var s1 := DoPut(s, ref, Stamped(s, NewObject(id, s.crs[id].status.uuid, body)));
            && ref in s1.owned && id in s1.crs
            && Reaches(cfg, s, DoWriteStatus(s1, id, Recorded(s1.crs[id].status, Some(Queue.Position(s1.owned, ref.kind, s1.owned[ref])),
                                                              s1.owned[ref].body, reason)))
  {
    hide Inv, Reaches, DoWriteStatus, Stamped, Recorded, Queue.Position;
    var ref := Deletion.VeleroRef(s, id);
    var s1 := DoPut(s, ref, Stamped(s, NewObject(id, s.crs[id].status.uuid, body)));
    VeleroPutReaches(cfg, s, id, body);
    var position := Some(Queue.Position(s1.owned, ref.kind, s1.owned[ref]));
    RecordReaches(cfg, s1, id, position, s1.owned[ref].body, reason);
    ReachesOn(cfg, s, s1, DoWriteStatus(s1, id, Recorded(s1.crs[id].status, position, s1.owned[ref].body, reason)));
  }

  lemma SyncPassReaches(cfg: Config, s: Store, id: Id, token: string)
    requires Ready(cfg, s, id) && id.kind == NAB && |token| == UuidLength && TokenFree(s, token)
    ensures Reaches(cfg, s, SyncPass(cfg, s, id, token).store)
  {
    hide Inv, Reaches, TokenFree, BackupStep, FinalizerStep, DoWriteStatus, NameUnused, Generated;
    ReadyShape(cfg, s, id);
    ReachesItself(cfg, s);
    GeneratedIsUnused(s, id, token);
    var c := s.crs[id];
    if c.status.uuid == "" {
      NameReaches(cfg, s, id, if c.sync.Some? then c.sync.value else Generated(id.ns, id.name, token));
    }
    var s3 := NabPass.UuidStep(s, id, token).store;
    HeldReaches(cfg, s3, id);
    var s4 := FinalizerStep(s3, id).store;
    ReachesOn(cfg, s, s3, s4);
    BackupReaches(cfg, s4, id);
    ReachesOn(cfg, s, s4, BackupStep(cfg, s4, id).store);
  }

  /** Every undisturbed pass over a backup that is not being deleted is a piece of a run. */
  lemma BackupPassIsRun(cfg: Config, s: Store, id: Id, token: string)
    requires Ready(cfg, s, id) && id.kind == NAB && |token| == UuidLength && TokenFree(s, token)
    ensures Reaches(cfg, s, CreatePass(cfg, s, id, token).store) && Reaches(cfg, s, SyncPass(cfg, s, id, token).store)
  {
    hide Inv, Reaches, TokenFree, SyncPass, DoWriteStatus, BackupError, Checked, InitStep;
    SyncPassReaches(cfg, s, id, token);
    var s1 := InitStep(s, id).store;
    InitStepReaches(cfg, s, id);
    CheckReaches(cfg, s, s1, id, BackupError(cfg, s1, id.ns, s1.crs[id].spec.fields), BackupAccepted, InvalidBackupSpec);
    var s2 := NabPass.ValidateStep(cfg, s1, id).store;
    SameNamesKeepToken(s, s2, token);
    SyncPassReaches(cfg, s2, id, token);
    ReachesOn(cfg, s, s2, SyncPass(cfg, s2, id, token).store);
  }

  lemma RestoreReaches(cfg: Config, s: Store, id: Id)
    requires Held(cfg, s, id) && id.kind == NAR
    ensures Reaches(cfg, s, RestoreStep(cfg, s, id).store)
  {
    hide Inv, Reaches, Found, DoWriteStatus, DoPut, Stamped, Queue.Position, Recorded, DeleteRequests, RestoreLost;
    ReachesItself(cfg, s);
    VeleroObject(cfg, s, id);
    var c, ref := s.crs[id], Deletion.VeleroRef(s, id);
    var backup := Id(NAB, id.ns, StrOf(c.spec.fields, BackupName));
    if ref in s.owned {
      RecordReaches(cfg, s, id, Some(Queue.Position(s.owned, RESTORE, s.owned[ref])), s.owned[ref].body, RestoreScheduled);
    } else if IsTrue(c.status.conds, Queued) {
      LostReaches(cfg, s, id, RestoreLost(c.status));
    } else if backup in s.crs {
      var fields := RestoreFields(cfg.enforcedRestore, c.spec.fields, id.ns, s.crs[backup].status.uuid);
      CreatedReaches(cfg, s, id, Restore(fields, 0, false, 0), RestoreScheduled);
    }
  }

  /** Every undisturbed pass over a restore that is not being deleted is a piece of a run. */
  lemma RestorePassIsRun(cfg: Config, s: Store, id: Id, token: string)
    requires Ready(cfg, s, id) && id.kind == NAR && |token| == UuidLength && TokenFree(s, token)
    ensures Reaches(cfg, s, RestorePass(cfg, s, id, token).store)
  {
    hide Inv, Reaches, TokenFree, DoWriteStatus, RestoreError, Checked, InitStep, RestoreStep, FinalizerStep, NameUnused, Generated;
    var s1 := InitStep(s, id).store;
    InitStepReaches(cfg, s, id);
    CheckReaches(cfg, s, s1, id, RestoreError(cfg, s1, id.ns, s1.crs[id].spec.fields), RestoreAccepted, InvalidRestoreSpec);
    var s2 := ValidateRestoreStep(cfg, s1, id).store;
    SameNamesKeepToken(s, s2, token);
    GeneratedIsUnused(s2, id, token);
    ReachesItself(cfg, s2);
    if s2.crs[id].status.uuid == "" {
      NameReaches(cfg, s2, id, Generated(id.ns, id.name, token));
    }
    var s3 := RestoreUuidStep(s2, id, token).store;
    ReachesOn(cfg, s, s2, s3);
    HeldReaches(cfg, s3, id);
    var s4 := FinalizerStep(s3, id).store;
    ReachesOn(cfg, s, s3, s4);
    RestoreReaches(cfg, s4, id);
    ReachesOn(cfg, s, s4, RestoreStep(cfg, s4, id).store);
  }
}
