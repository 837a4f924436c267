/**
 The NonAdminRestore controller.
 */
module Nar {
  import opened Objects
  import opened Specs
  import opened Cluster
  import opened Protocol
  import opened Interference
  import opened ApiClient
  import opened Steps
  import opened NabPass
  import opened NarPass
  import opened Naming
  import Nab
  import Queue
  import Runs

  class NarReconciler {
    const client: Client
    var nar: Cr

    constructor (client: Client, nar: Cr)
      ensures this.client == client && this.nar == nar
    {
      this.client, this.nar := client, nar;
    }

    /** The copy in hand is one that was read and may still be written back. */
    ghost predicate Ready()
      reads this, client
    {
      && client.Valid() && client.me.kind == NAR
      && (client.audited ==> Knows(client.cfg, client.store, client.me, nar))
    }

    ghost predicate Undisturbed()
      reads this, client
    {
      client.Quiet() && client.me in client.store.crs && client.store.crs[client.me] == nar
    }

    ghost predicate Held()
      reads this, client
    {
      client.audited ==> nar.finalizer && nar.status.uuid != ""
    }

    ghost predicate Fresh()
      reads client
    {
      client.audited ==> TokenFree(client.store, client.token)
    }

    method WriteBack(ghost base: Cr) returns (ok: bool, ghost met: Store)
      requires client.Valid()
      requires client.audited ==>
                 && Knows(client.cfg, client.store, client.me, base)
                 && nar == base.(status := nar.status)
                 && StatusFollows(client.me.kind, base.status, nar.status)
                 && (nar.status.uuid == base.status.uuid || base.sync == Some(nar.status.uuid)
                     || (EndsWith(nar.status.uuid, client.token) && TokenFree(client.store, client.token)))
      modifies this`nar, client
      ensures client.Valid()
      ensures client.audited ==> Rely(client.cfg, client.me, client.token, old(client.store), met)
      ensures client.store == met || client.store == DoWriteStatus(met, client.me, old(nar).status)
      ensures client.audited && ok ==>
                && Knows(client.cfg, client.store, client.me, nar)
                && nar == base.(status := old(nar).status, rv := nar.rv)
      ensures ok ==> nar.status == old(nar).status
      ensures client.audited && TokenFree(old(client.store), client.token) && old(nar).status.uuid == base.status.uuid ==>
                TokenFree(client.store, client.token)
      ensures old(client.Quiet() && client.me in client.store.crs && client.store.crs[client.me].rv == nar.rv) ==>
                && client.Quiet() && ok && client.store == DoWriteStatus(old(client.store), client.me, old(nar).status)
                && client.me in client.store.crs && nar == client.store.crs[client.me]
    {
      var r;
      r, met := client.UpdateStatus(nar, base);
      ok := r.Ok?;
      if ok {
        nar := r.value;
      }
    }

    /** Writes the status back if it differs from the one read. */
    method SaveStatus(was: Status, ghost base: Cr) returns (ok: bool)
      requires client.Valid() && was == base.status && nar == base.(status := nar.status)
      requires client.audited ==>
                 && Knows(client.cfg, client.store, client.me, base) && client.me.kind == NAR
                 && StatusFollows(client.me.kind, base.status, nar.status) && nar.status.uuid == base.status.uuid
      modifies this`nar, client
      ensures client.Valid()
      ensures client.audited && ok ==>
                && Knows(client.cfg, client.store, client.me, nar)
                && nar == base.(status := old(nar).status, rv := nar.rv)
      ensures ok ==> nar.status == old(nar).status
      ensures client.audited && TokenFree(old(client.store), client.token) ==> TokenFree(client.store, client.token)
      ensures old(client.Quiet() && client.me in client.store.crs && client.store.crs[client.me] == base) ==>
                && ok && Undisturbed() && client.store == DoWriteStatus(old(client.store), client.me, old(nar).status)
    {
      hide Inv, Runs.IsRun, Rely, Knows, TokenFree, StatusFollows;
      SameStatusIsNoWrite(client.store, client.me);
      ok := true;
      if nar.status != was {
        ghost var met;
        ok, met := WriteBack(base);
      }
    }

    method Init() returns (outcome: Outcome)
      requires Ready() && Fresh()
      modifies this`nar, client
      ensures client.Valid() && Fresh() && (outcome != Failed ==> Ready())
      ensures old(Undisturbed()) ==>
                && Out(client.store, outcome) == InitStep(old(client.store), client.me) && Undisturbed()
    {
      hide Inv, Runs.IsRun, Rely, Knows, TokenFree;
      SameStatusIsNoWrite(client.store, client.me);
      if nar.status.phase == Unset {
        var was := nar.status;
        ghost var base := nar;
        nar := nar.(status := was.(phase := New));
        var ok := SaveStatus(was, base);
        return if ok then Continue else Failed;
      }
      return Continue;
    }

    method ValidateRestoreSpec() returns (err: Option<Message>)
      requires client.Valid()
      modifies client
      ensures client.Valid()
      ensures client.audited ==> Rely(client.cfg, client.me, client.token, old(client.store), client.store)
      ensures old(client.Quiet()) ==>
                && client.Quiet() && client.store == old(client.store)
                && err == RestoreError(client.cfg, client.store, client.me.ns, nar.spec.fields)
    {
      hide Inv, Runs.IsRun, Rely;
      var fields := nar.spec.fields;
      if client.audited {
        RelyReflexive(client.cfg, client.me, client.token, client.store);
      }
      if |StrOf(fields, ScheduleName)| > 0 {
        return Some(Restricted(ScheduleName));
      }
      if StrOf(fields, BackupName) == "" {
        return Some(Missing(BackupName));
      }
      var backup := client.Get(Id(NAB, client.me.ns, StrOf(fields, BackupName)));
      if backup.Err? {
        return Some(Invalid(BackupName));
      }
      if backup.value.status.phase != Created {
        return Some(Invalid(BackupName));
      }
      if IncludedNamespaces in fields {
        return Some(Restricted(IncludedNamespaces));
      }
      if ExcludedNamespaces in fields {
        return Some(Restricted(ExcludedNamespaces));
      }
      if NamespaceMapping in fields {
        return Some(Restricted(NamespaceMapping));
      }
      var bad := FindViolation(client.cfg.fields, client.cfg.enforcedRestore, fields);
      return if bad.Some? then Some(Enforced(bad.value)) else None;
    }

    method ValidateSpec() returns (outcome: Outcome)
      requires Ready() && Fresh()
      modifies this`nar, client
      ensures client.Valid() && Fresh() && (outcome != Failed ==> Ready())
      ensures old(Undisturbed()) ==>
                && Out(client.store, outcome) == ValidateRestoreStep(client.cfg, old(client.store), client.me) && Undisturbed()
    {
      hide Inv, Runs.IsRun, Rely, TokenFree, RestoreError;
      ghost var base, s0 := nar, client.store;
      var was := nar.status;
      var err := ValidateRestoreSpec();
      if client.audited {
        KnowledgeIsStable(client.cfg, client.me, client.token, s0, client.store, base);
        TokenStaysFree(client.cfg, client.me, client.token, s0, client.store);
      }
      nar := nar.(status := Checked(was, err, RestoreAccepted, InvalidRestoreSpec));
      var ok := SaveStatus(was, base);
      return if ok && err.None? then Continue else Failed;
    }

    method SetUUID() returns (outcome: Outcome)
      requires Ready() && Fresh()
      modifies this`nar, client
      ensures client.Valid() && (outcome != Failed ==> Ready())
      ensures outcome != Failed && client.audited ==> nar.status.uuid != ""
      ensures old(Undisturbed()) ==>
                && Out(client.store, outcome) == RestoreUuidStep(old(client.store), client.me, client.token) && Undisturbed()
    {
      hide Inv, Runs.IsRun, TokenFree;
      ghost var s0 := client.store;
      var fetched := client.Get(client.me);
      if client.audited {
        TokenStaysFree(client.cfg, client.me, client.token, s0, client.store);
      }
      if fetched.Err? {
        return Failed;
      }
      nar := fetched.value;
      if nar.status.uuid == "" {
        ghost var base := nar;
        var veleroRestoreNACUUID := GenerateNacObjectUUID(client.me.ns, client.me.name, client.token);
        GeneratedNameBounds(client.me.ns, client.me.name, client.token);
        nar := nar.(status := nar.status.(uuid := veleroRestoreNACUUID));
        var ok, met := WriteBack(base);
        if !ok {
          return Failed;
        }
      }
      return Continue;
    }

    method SetFinalizer() returns (outcome: Outcome)
      requires Ready() && (client.audited ==> nar.status.uuid != "")
      modifies this`nar, client
      ensures client.Valid() && (outcome != Failed ==> Ready() && Held())
      ensures old(Undisturbed()) ==>
                && Out(client.store, outcome) == FinalizerStep(old(client.store), client.me) && Undisturbed()
    {
      if !nar.finalizer {
        ghost var base := nar;
        nar := nar.(finalizer := true);
        var r, met := client.UpdateFinalizer(nar, base, true);
        if r.Err? || r.value.None? {
          return Failed;
        }
        nar := r.value.value;
      }
      return Continue;
    }

    method CreateVeleroRestore() returns (outcome: Outcome)
      requires Ready() && Held()
      modifies this`nar, client
      ensures client.Valid()
      ensures old(Undisturbed()) ==> Out(client.store, outcome) == RestoreStep(client.cfg, old(client.store), client.me)
    {
      hide Inv, Runs.IsRun, Rely, RestoreRecorded, DoPut, DoWriteStatus, RestoreFields;
      var uuid := nar.status.uuid;
      if uuid == "" {
        return Failed;
      }
      ghost var s0 := client.store;
      var found := client.FindByLabel(RESTORE, OriginUuid(NAR), uuid);
      if client.audited {
        KnowledgeIsStable(client.cfg, client.me, client.token, s0, client.store, nar);
      }
      if found.Err? {
        return Failed;
      }
      var veleroRestore: Owned;
      if found.value.None? {
        if IsTrue(nar.status.conds, Queued) {
          var was := nar.status;
          ghost var base := nar;
          nar := nar.(status := RestoreLost(was));
          var ok := SaveStatus(was, base);
          return Failed;
        }
        var created := BuildAndCreate();
        if created.None? {
          return Failed;
        }
        veleroRestore := created.value;
      } else {
        veleroRestore := found.value.value.1;
        OnlyMember(found.value.value.0);
      }
      outcome := RecordRestore(veleroRestore);
    }

    /** The branch that creates the Velero restore, only ever for one that was not queued yet. */
    method BuildAndCreate() returns (created: Option<Owned>)
      requires Ready() && Held() && nar.status.uuid != "" && !IsTrue(nar.status.conds, Queued)
      modifies client
      ensures client.Valid() && (created.Some? ==> Ready())
      ensures old(Undisturbed()) ==>
                var s, uuid := old(client.store), nar.status.uuid;
                var backup := Id(NAB, client.me.ns, StrOf(nar.spec.fields, BackupName));
                var ref := Ref(RESTORE, uuid);
                if backup !in s.crs || s.crs[backup].status.uuid == "" || ref in s.owned then client.store == s && created.None?
                else
                  var fields := RestoreFields(client.cfg.enforcedRestore, nar.spec.fields, client.me.ns, s.crs[backup].status.uuid);
                  var o := Stamped(s, NewObject(client.me, uuid, Restore(fields, 0, false, 0)));
                  && Undisturbed() && client.store == DoPut(s, ref, o)
                  && created == Some(client.store.owned[ref])
    {
      hide Inv, Runs.IsRun, Rely, RestoreFields;
      var uuid := nar.status.uuid;
      ghost var s0 := client.store;
      var backup := client.Get(Id(NAB, client.me.ns, StrOf(nar.spec.fields, BackupName)));
      if client.audited {
        KnowledgeIsStable(client.cfg, client.me, client.token, s0, client.store, nar);
      }
      if backup.Err? || backup.value.status.uuid == "" {
        return None;
      }
      var restoreSpec := BuildRestoreFields(backup.value.status.uuid);
      var veleroRestore := NewObject(client.me, uuid, Restore(restoreSpec, 0, false, 0));
      ghost var s1 := client.store;
      if client.audited {
        Nab.ObjectMayBeCreated(client.cfg, client.me, client.token, client.store, nar, Ref(RESTORE, uuid), veleroRestore);
      }
      var r, met := client.CreateObject(Ref(RESTORE, uuid), veleroRestore);
      if client.audited {
        StillKnown(client.cfg, client.me, client.token, s1, met, client.store, nar);
      }
      return if r.Ok? then Some(r.value) else None;
    }

    method BuildRestoreFields(backup: string) returns (restoreSpec: Fields)
      requires client.Valid()
      ensures restoreSpec == RestoreFields(client.cfg.enforcedRestore, nar.spec.fields, client.me.ns, backup)
    {
      restoreSpec := nar.spec.fields[BackupName := Str(backup)];
      restoreSpec := restoreSpec[IncludedNamespaces := Names([client.me.ns])];
      restoreSpec := Merge(client.cfg.fields, client.cfg.enforcedRestore, restoreSpec);
      if WildcardString !in NamesOf(restoreSpec, ExcludedResources) {
        restoreSpec := restoreSpec[ExcludedResources := Names(NamesOf(restoreSpec, ExcludedResources) + ["volumesnapshotclasses"])];
      }
    }

    method RecordRestore(veleroRestore: Owned) returns (outcome: Outcome)
      requires Ready() && Held() && nar.status.uuid != ""
      modifies this`nar, client
      ensures client.Valid()
      ensures old(Undisturbed()) ==>
                outcome == Continue && client.store == RestoreRecorded(old(client.store), client.me, veleroRestore)
    {
      hide Inv, Runs.IsRun, Rely, Knows, TokenFree, Queue.Position;
      ghost var s0 := client.store;
      var was := nar.status;
      ghost var base := nar;
      var restores := client.ListObjects(RESTORE);
      if client.audited {
        KnowledgeIsStable(client.cfg, client.me, client.token, s0, client.store, nar);
      }
      var position := None;
      if restores.Ok? {
        var queueInfo := Queue.GetQueueInfo(RESTORE, restores.value, veleroRestore, client.store.owned);
        position := Some(queueInfo);
      }
      nar := nar.(status := Recorded(was, position, veleroRestore.body, RestoreScheduled));
      var ok := SaveStatus(was, base);
      return if ok then Continue else Failed;
    }

    method SetStatusAndConditionForDeletion() returns (outcome: Outcome)
      requires Ready()
      modifies this`nar, client
      ensures client.Valid() && (outcome == Continue ==> Ready() && (client.audited ==> nar.deleting == old(nar).deleting))
      ensures old(Undisturbed()) ==>
                && outcome == Continue && Undisturbed()
                && client.store == DoWriteStatus(old(client.store), client.me, Marked(old(nar).status, AcceptedForDeletion))
    {
      hide Inv, Runs.IsRun, Rely, TokenFree;
      var was := nar.status;
      ghost var base := nar;
      nar := nar.(status := Marked(was, AcceptedForDeletion));
      var ok := SaveStatus(was, base);
      return if ok then Continue else Failed;
    }

    method DeleteVeleroRestoreAndRemoveFinalizer() returns (outcome: Outcome)
      requires Ready() && (client.audited ==> nar.deleting)
      modifies this`nar, client
      ensures client.Valid()
      ensures old(Undisturbed()) ==> Out(client.store, outcome) == LetGoStep(old(client.store), client.me, RESTORE)
    {
      hide Inv, Runs.IsRun, Rely, Seen, TokenFree, NothingProtected;
      var uuid := nar.status.uuid;
      if uuid == "" {
        return Continue;
      }
      ghost var s0 := client.store;
      var veleroRestore := client.FindByLabel(RESTORE, OriginUuid(NAR), uuid);
      ghost var s1 := client.store;
      if client.audited {
        KnowledgeIsStable(client.cfg, client.me, client.token, s0, s1, nar);
        RestoreGone(client.cfg, s1, client.me, uuid);
      }
      if veleroRestore.Err? {
        return Failed;
      }
      if veleroRestore.value.Some? {
        OnlyMember(veleroRestore.value.value.0);
        var r, met := client.RemoveObject(veleroRestore.value.value.0);
        return if r.Ok? then Continue else Failed;
      }
      outcome := RemoveNarFinalizer();
    }

    method RemoveNarFinalizer() returns (outcome: Outcome)
      requires Ready()
      requires client.audited ==>
                 nar.deleting && (!client.cfg.staleReads ==> NothingProtected(client.cfg.reimports, client.store.owned, client.me, nar.status.uuid))
      modifies this`nar, client
      ensures client.Valid()
      ensures old(Undisturbed()) ==> outcome == Continue && client.store == DoWriteFinalizer(old(client.store), client.me, false)
    {
      ghost var base := nar;
      nar := nar.(finalizer := false);
      var r, met := client.UpdateFinalizer(nar, base, false);
      return if r.Ok? then Continue else Failed;
    }

    method Reconcile() returns (outcome: Outcome)
      requires client.Valid() && Fresh() && client.me.kind == NAR
      modifies this`nar, client
      ensures client.Valid()
      ensures old(client.Quiet()) ==>
                var s, t, me := old(client.store), client.store, client.me;
                if me !in s.crs then outcome == Continue && t == s
                else Out(t, outcome) == if s.crs[me].deleting then RestoreDeletePass(s, me)
                                        else RestorePass(client.cfg, s, me, client.token)
    {
      hide Inv, Runs.IsRun, Rely, Knows, TokenFree, RestoreDeletePass, RestorePass;
      ghost var s0 := client.store;
      var fetched := client.Get(client.me);
      if client.audited {
        TokenStaysFree(client.cfg, client.me, client.token, s0, client.store);
      }
      if fetched.Err? {
        return if fetched.error == NotFound then Continue else Failed;
      }
      nar := fetched.value;
      if nar.deleting {
        outcome := ReconcileDelete();
      } else {
        outcome := ReconcileCreate();
      }
    }

    method ReconcileDelete() returns (outcome: Outcome)
      requires Ready() && (client.audited ==> nar.deleting)
      modifies this`nar, client
      ensures client.Valid()
      ensures old(Undisturbed()) ==> Out(client.store, outcome) == RestoreDeletePass(old(client.store), client.me)
    {
      hide Inv, Runs.IsRun, Rely, Knows, TokenFree, LetGoStep, DoWriteStatus, Marked;
      outcome := SetStatusAndConditionForDeletion();
      if outcome != Continue {
        return;
      }
      outcome := DeleteVeleroRestoreAndRemoveFinalizer();
    }

    method ReconcileCreate() returns (outcome: Outcome)
      requires Ready() && Fresh()
      modifies this`nar, client
      ensures client.Valid()
      ensures old(Undisturbed()) ==>
                Out(client.store, outcome) == RestorePass(client.cfg, old(client.store), client.me, client.token)
    {
      hide Inv, Runs.IsRun, Rely, Knows, TokenFree, InitStep, ValidateRestoreStep, RestoreUuidStep, FinalizerStep, RestoreStep;
      outcome := Init();
      if outcome != Continue {
        return;
      }
      outcome := ValidateSpec();
      if outcome != Continue {
        return;
      }
      outcome := SetUUID();
      if outcome != Continue {
        return;
      }
      outcome := SetFinalizer();
      if outcome != Continue {
        return;
      }
      outcome := CreateVeleroRestore();
    }
  }

  // ---- Facts the steps rest on ----

  lemma RestoreGone(cfg: Config, s: Store, me: Id, uuid: string)
    requires Inv(cfg, s) && me.kind == NAR && (!cfg.staleReads && uuid != "" ==> IssuedTo(s, me, uuid))
    ensures !cfg.staleReads && uuid != "" && Found(s, RESTORE, uuid) == {} ==> NothingProtected(cfg.reimports, s.owned, me, uuid)
    ensures |Found(s, RESTORE, uuid)| <= 1
  {
    NoneFoundNoneNamed(cfg, s, me, RESTORE, uuid);
    hide Inv;
    forall ref | ref in s.owned && Guarded(cfg.reimports, ref.kind) && OwnerKind(ref.kind) == me.kind
      ensures !cfg.staleReads && uuid != "" && Found(s, RESTORE, uuid) == {} ==> ref.name != uuid
    {
      assert ref.kind == RESTORE;
    }
  }
}
