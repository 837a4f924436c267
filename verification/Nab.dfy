/**
 The NonAdminBackup controller: creation, the two delete paths, and the path for backups
 that the synchronizer brought back.
 */
module Nab {
  import opened Objects
  import opened Specs
  import opened Cluster
  import opened Protocol
  import opened Interference
  import opened ApiClient
  import opened Steps
  import opened NabPass
  import opened Naming
  import Queue
  import Runs

  class NabReconciler {
    const client: Client
    var nab: Cr

    constructor (client: Client, nab: Cr)
      ensures this.client == client && this.nab == nab
    {
      this.client, this.nab := client, nab;
    }

    /** The copy in hand is one that was read and may still be written back. */
    ghost predicate Ready()
      reads this, client
    {
      && client.Valid() && client.me.kind == NAB
      && (client.audited ==> Knows(client.cfg, client.store, client.me, nab))
    }

    ghost predicate Undisturbed()
      reads this, client
    {
      client.Quiet() && client.me in client.store.crs && client.store.crs[client.me] == nab
    }

    ghost predicate Held()
      reads this, client
    {
      client.audited ==> nab.finalizer && nab.status.uuid != ""
    }

    ghost predicate Fresh()
      reads client
    {
      client.audited ==> TokenFree(client.store, client.token)
    }

    method WriteBack(ghost base: Cr) returns (ok: bool, ghost met: Store)
      requires client.Valid()
      requires client.audited ==>
                 && Knows(client.cfg, client.store, client.me, base)
                 && nab == base.(status := nab.status)
                 && StatusFollows(client.me.kind, base.status, nab.status)
                 && (nab.status.uuid == base.status.uuid || base.sync == Some(nab.status.uuid)
                     || (EndsWith(nab.status.uuid, client.token) && TokenFree(client.store, client.token)))
      modifies this`nab, client
      ensures client.Valid()
      ensures client.audited ==> Rely(client.cfg, client.me, client.token, old(client.store), met)
      ensures client.store == met || client.store == DoWriteStatus(met, client.me, old(nab).status)
      ensures client.audited && ok ==>
                && Knows(client.cfg, client.store, client.me, nab)
                && nab == base.(status := old(nab).status, rv := nab.rv)
      ensures ok ==> nab.status == old(nab).status
      ensures client.audited && TokenFree(old(client.store), client.token) && old(nab).status.uuid == base.status.uuid ==>
                TokenFree(client.store, client.token)
      ensures old(client.Quiet() && client.me in client.store.crs && client.store.crs[client.me].rv == nab.rv) ==>
                && client.Quiet() && ok && client.store == DoWriteStatus(old(client.store), client.me, old(nab).status)
                && client.me in client.store.crs && nab == client.store.crs[client.me]
    {
      var r;
      r, met := client.UpdateStatus(nab, base);
      ok := r.Ok?;
      if ok {
        nab := r.value;
      }
    }

    /** Writes the status back if it differs from the one read. */
    method SaveStatus(was: Status, ghost base: Cr) returns (ok: bool)
      requires client.Valid() && was == base.status && nab == base.(status := nab.status)
      requires client.audited ==>
                 && Knows(client.cfg, client.store, client.me, base) && client.me.kind == NAB
                 && StatusFollows(client.me.kind, base.status, nab.status) && nab.status.uuid == base.status.uuid
      modifies this`nab, client
      ensures client.Valid()
      ensures client.audited && ok ==>
                && Knows(client.cfg, client.store, client.me, nab)
                && nab == base.(status := old(nab).status, rv := nab.rv)
      ensures ok ==> nab.status == old(nab).status
      ensures client.audited && TokenFree(old(client.store), client.token) ==> TokenFree(client.store, client.token)
      ensures old(client.Quiet() && client.me in client.store.crs && client.store.crs[client.me] == base) ==>
                && ok && Undisturbed() && client.store == DoWriteStatus(old(client.store), client.me, old(nab).status)
    {
      hide Inv, Runs.IsRun, Rely, Knows, TokenFree, StatusFollows;
      SameStatusIsNoWrite(client.store, client.me);
      ok := true;
      if nab.status != was {
        ghost var met;
        ok, met := WriteBack(base);
      }
    }

    method InitNabCreate() returns (outcome: Outcome)
      requires Ready() && Fresh()
      modifies this`nab, client
      ensures client.Valid() && Fresh() && (outcome != Failed ==> Ready())
      ensures old(Undisturbed()) ==>
                && Out(client.store, outcome) == InitStep(old(client.store), client.me) && Undisturbed()
    {
      hide Inv, Runs.IsRun, Rely, Knows, TokenFree;
      var was := nab.status;
      ghost var base := nab;
      SameStatusIsNoWrite(client.store, client.me);
      if was.phase != Unset {
        return Continue;
      }
      nab := nab.(status := was.(phase := New));
      var ok := SaveStatus(was, base);
      return if ok then Continue else Failed;
    }

    /** The location the spec names: found, created, and available in Velero. */
    method CheckLocation(name: string) returns (usable: bool)
      requires client.Valid()
      modifies client
      ensures client.Valid()
      ensures client.audited ==> Rely(client.cfg, client.me, client.token, old(client.store), client.store)
      ensures old(client.Quiet()) ==>
                client.Quiet() && client.store == old(client.store) && usable == LocationUsable(client.store, client.me.ns, name)
    {
      hide Inv, Runs.IsRun, Rely;
      ghost var s0 := client.store;
      var nonAdminBsl := client.Get(Id(NABSL, client.me.ns, name));
      ghost var s1 := client.store;
      if nonAdminBsl.Err? || nonAdminBsl.value.status.phase != Created || nonAdminBsl.value.status.uuid == "" {
        return false;
      }
      var found := client.FindByLabel(BSL, OriginUuid(NABSL), nonAdminBsl.value.status.uuid);
      if client.audited {
        RelyTransitive(client.cfg, client.me, client.token, s0, s1, client.store);
      }
      if found.Err? || found.value.None? {
        return false;
      }
      OnlyMember(found.value.value.0);
      var body := found.value.value.1.body;
      return body.Location? && body.available;
    }

    method ValidateBackupSpec() returns (err: Option<Message>)
      requires client.Valid()
      modifies client
      ensures client.Valid()
      ensures client.audited ==> Rely(client.cfg, client.me, client.token, old(client.store), client.store)
      ensures old(client.Quiet()) ==>
                && client.Quiet() && client.store == old(client.store)
                && err == BackupError(client.cfg, client.store, client.me.ns, nab.spec.fields)
    {
      hide Inv, Runs.IsRun, Rely, LocationUsable;
      var fields := nab.spec.fields;
      if client.audited {
        RelyReflexive(client.cfg, client.me, client.token, client.store);
      }
      if IncludedNamespaces in fields {
        var only := ContainsOnlyNamespace(NamesOf(fields, IncludedNamespaces), client.me.ns);
        if !only {
          return Some(Restricted(IncludedNamespaces));
        }
      }
      if ExcludedNamespaces in fields {
        return Some(Restricted(ExcludedNamespaces));
      }
      if IncludeClusterResources in fields && fields[IncludeClusterResources] == Flag(true) {
        return Some(Restricted(IncludeClusterResources));
      }
      if |NamesOf(fields, IncludedClusterScopedResources)| > 0 {
        return Some(Restricted(IncludedClusterScopedResources));
      }
      if StrOf(fields, StorageLocation) != "" {
        var usable := CheckLocation(StrOf(fields, StorageLocation));
        if !usable {
          return Some(Invalid(StorageLocation));
        }
      }
      if VolumeSnapshotLocations in fields {
        return Some(Restricted(VolumeSnapshotLocations));
      }
      var bad := FindViolation(client.cfg.fields, client.cfg.enforcedBackup, fields);
      return if bad.Some? then Some(Enforced(bad.value)) else None;
    }

    method ContainsOnlyNamespace(namespaces: seq<string>, namespace: string) returns (only: bool)
      ensures only == OnlyNamespace(namespaces, namespace)
    {
      for i := 0 to |namespaces|
        invariant forall j | 0 <= j < i :: namespaces[j] == namespace
      {
        if namespaces[i] != namespace {
          assert namespaces[i] in namespaces;
          return false;
        }
      }
      return true;
    }

    method ValidateSpec() returns (outcome: Outcome)
      requires Ready() && Fresh()
      modifies this`nab, client
      ensures client.Valid() && Fresh() && (outcome != Failed ==> Ready())
      ensures old(Undisturbed()) ==>
                && Out(client.store, outcome) == ValidateStep(client.cfg, old(client.store), client.me) && Undisturbed()
    {
      hide Inv, Runs.IsRun, Rely, TokenFree, BackupError;
      ghost var base, s0 := nab, client.store;
      var was := nab.status;
      var err := ValidateBackupSpec();
      if client.audited {
        KnowledgeIsStable(client.cfg, client.me, client.token, s0, client.store, base);
        TokenStaysFree(client.cfg, client.me, client.token, s0, client.store);
      }
      nab := nab.(status := Checked(was, err, BackupAccepted, InvalidBackupSpec));
      var ok := SaveStatus(was, base);
      return if ok && err.None? then Continue else Failed;
    }

    method SetBackupUUIDInStatus() returns (outcome: Outcome)
      requires Ready() && Fresh()
      modifies this`nab, client
      ensures client.Valid() && (outcome != Failed ==> Ready())
      ensures outcome != Failed && client.audited ==> nab.status.uuid != ""
      ensures old(Undisturbed()) ==>
                && Out(client.store, outcome) == UuidStep(old(client.store), client.me, client.token) && Undisturbed()
    {
      hide Inv, Runs.IsRun, TokenFree;
      ghost var s0 := client.store;
      var fetched := client.Get(client.me);
      if client.audited {
        TokenStaysFree(client.cfg, client.me, client.token, s0, client.store);
      }
      if fetched.Err? {
        return Failed;
      }
      nab := fetched.value;
      if nab.status.uuid == "" {
        ghost var base := nab;
        var veleroBackupNACUUID := "";
        if nab.sync.Some? {
          veleroBackupNACUUID := nab.sync.value;
        } else {
          veleroBackupNACUUID := GenerateNacObjectUUID(client.me.ns, client.me.name, client.token);
          GeneratedNameBounds(client.me.ns, client.me.name, client.token);
        }
        nab := nab.(status := nab.status.(uuid := veleroBackupNACUUID));
        var ok, met := WriteBack(base);
        if !ok {
          return Failed;
        }
      }
      return Continue;
    }

    method SetFinalizerOnNonAdminBackup() returns (outcome: Outcome)
      requires Ready() && (client.audited ==> nab.status.uuid != "")
      modifies this`nab, client
      ensures client.Valid() && (outcome != Failed ==> Ready() && Held())
      ensures old(Undisturbed()) ==>
                && Out(client.store, outcome) == FinalizerStep(old(client.store), client.me) && Undisturbed()
    {
      if !nab.finalizer {
        ghost var base := nab;
        nab := nab.(finalizer := true);
        var r, met := client.UpdateFinalizer(nab, base, true);
        if r.Err? || r.value.None? {
          return Failed;
        }
        nab := r.value.value;
      }
      return Continue;
    }

    method CreateVeleroBackupAndSync() returns (outcome: Outcome)
      requires Ready() && Held()
      modifies this`nab, client
      ensures client.Valid()
      ensures old(Undisturbed()) ==> Out(client.store, outcome) == BackupStep(client.cfg, old(client.store), client.me)
    {
      hide Inv, Runs.IsRun, Rely, Seen, BackupRecorded, DoPut, DoWriteStatus, BackupFields;
      var uuid := nab.status.uuid;
      if uuid == "" {
        return Failed;
      }
      ghost var s0 := client.store;
      var found := client.FindByLabel(BACKUP, OriginUuid(NAB), uuid);
      if client.audited {
        KnowledgeIsStable(client.cfg, client.me, client.token, s0, client.store, nab);
      }
      if found.Err? {
        return Failed;
      }
      var veleroBackup: Owned;
      if found.value.None? {
        if SyncLabelled(nab) || nab.status.phase == Created {
          MissingBackupIsReported(client.cfg, client.store, client.me, nab, client.audited);
          var was := nab.status;
          ghost var base := nab;
          nab := nab.(status := BackupLost(was));
          var ok := SaveStatus(was, base);
          return Failed;
        }
        var created := CreateVeleroBackup();
        if created.None? {
          return Failed;
        }
        veleroBackup := created.value;
      } else {
        veleroBackup := found.value.value.1;
        OnlyMember(found.value.value.0);
        if !HasValue(veleroBackup.annotations, OriginNamespace(NAB), client.me.ns) {
          return Failed;
        }
      }
      outcome := RecordBackup(veleroBackup);
    }

    /** The branch that creates the Velero backup: merged spec, own namespace, Velero's name of
        the location. */
    method CreateVeleroBackup() returns (created: Option<Owned>)
      requires Ready() && Held() && nab.status.uuid != ""
      modifies client
      ensures client.Valid() && (created.Some? ==> Ready())
      ensures old(Undisturbed()) ==>
                var s, uuid := old(client.store), nab.status.uuid;
                var location := VeleroLocation(client.cfg, s, client.me.ns, nab.spec.fields);
                var ref := Ref(BACKUP, uuid);
                if location.None? || ref in s.owned then client.store == s && created.None?
                else
                  var fields := BackupFields(client.cfg.enforcedBackup, nab.spec.fields, client.me.ns, location.value);
                  var o := Stamped(s, NewObject(client.me, uuid, Backup(fields, 0, false, 0)));
                  && Undisturbed() && client.store == DoPut(s, ref, o)
                  && created == Some(client.store.owned[ref])
    {
      hide Inv, Runs.IsRun, Rely, Seen, BackupFields;
      var uuid := nab.status.uuid;
      var name := AskedLocation();
      var location := "";
      if name != "" {
        ghost var s0 := client.store;
        var nonAdminBsl := client.Get(Id(NABSL, client.me.ns, name));
        if client.audited {
          KnowledgeIsStable(client.cfg, client.me, client.token, s0, client.store, nab);
        }
        if nonAdminBsl.Err? || nonAdminBsl.value.status.uuid == "" {
          return None;
        }
        location := nonAdminBsl.value.status.uuid;
      }
      var backupSpec := BuildBackupFields(client.cfg.fields, client.cfg.enforcedBackup, nab.spec.fields, client.me.ns, location);
      var veleroBackup := NewObject(client.me, uuid, Backup(backupSpec, 0, false, 0));
      ghost var s1 := client.store;
      if client.audited {
        ObjectMayBeCreated(client.cfg, client.me, client.token, client.store, nab, Ref(BACKUP, uuid), veleroBackup);
      }
      var r, met := client.CreateObject(Ref(BACKUP, uuid), veleroBackup);
      if client.audited {
        StillKnown(client.cfg, client.me, client.token, s1, met, client.store, nab);
      }
      return if r.Ok? then Some(r.value) else None;
    }

    method AskedLocation() returns (name: string)
      requires client.Valid()
      ensures name == StrOf(Merged(client.cfg.enforcedBackup, nab.spec.fields), StorageLocation)
    {
      var merged := Merge(client.cfg.fields, client.cfg.enforcedBackup, nab.spec.fields);
      name := StrOf(merged, StorageLocation);
    }

    /** Queue position, phase, condition and mirrored backup go into the status in one write. */
    method RecordBackup(veleroBackup: Owned) returns (outcome: Outcome)
      requires Ready() && Held() && nab.status.uuid != ""
      modifies this`nab, client
      ensures client.Valid()
      ensures old(Undisturbed()) ==>
                outcome == Continue && client.store == BackupRecorded(old(client.store), client.me, veleroBackup)
    {
      hide Inv, Runs.IsRun, Rely, Knows, TokenFree, Queue.Position;
      ghost var s0 := client.store;
      var was := nab.status;
      ghost var base := nab;
      var backups := client.ListObjects(BACKUP);
      if client.audited {
        KnowledgeIsStable(client.cfg, client.me, client.token, s0, client.store, nab);
      }
      var position := None;
      if backups.Ok? {
        var queueInfo := Queue.GetQueueInfo(BACKUP, backups.value, veleroBackup, client.store.owned);
        position := Some(queueInfo);
      }
      nab := nab.(status := Recorded(was, position, veleroBackup.body, BackupScheduled));
      var ok := SaveStatus(was, base);
      return if ok then Continue else Failed;
    }

    // ---- Deletion ----

    method SetStatusAndConditionForDeletionAndCallDelete() returns (outcome: Outcome)
      requires Ready()
      modifies this`nab, client
      ensures client.Valid() && (outcome == Continue ==> Ready() && (client.audited ==> nab.deleting))
      ensures client.audited && TokenFree(old(client.store), client.token) ==> TokenFree(client.store, client.token)
      ensures old(Undisturbed()) ==>
                && Out(client.store, outcome) == MarkStep(old(client.store), client.me)
                && (outcome == Continue ==> Undisturbed())
    {
      hide Inv, Runs.IsRun, Rely, TokenFree, DoDelete;
      var was := nab.status;
      ghost var base := nab;
      nab := nab.(status := Marked(was, AcceptedForDeletion));
      var ok := SaveStatus(was, base);
      if !ok {
        return Failed;
      }
      if !nab.deleting {
        ghost var s1 := client.store;
        var r, met := client.Delete(client.me);
        if client.audited {
          TokenStaysFree(client.cfg, client.me, client.token, s1, met);
          DeleteKeepsToken(client.cfg, met, client.me, client.token);
        }
        return if r.Ok? then Requeue else Failed;
      }
      return Continue;
    }

    method SetStatusForDirectKubernetesAPIDeletion() returns (outcome: Outcome)
      requires Ready()
      modifies this`nab, client
      ensures client.Valid() && (outcome == Continue ==> Ready() && (client.audited ==> nab.deleting == old(nab).deleting))
      ensures old(Undisturbed()) ==>
                && outcome == Continue && Undisturbed()
                && client.store == DoWriteStatus(old(client.store), client.me, Marked(old(nab).status, DirectDeletion))
    {
      hide Inv, Runs.IsRun, Rely, TokenFree;
      var was := nab.status;
      ghost var base := nab;
      nab := nab.(status := Marked(was, DirectDeletion));
      var ok := SaveStatus(was, base);
      return if ok then Continue else Failed;
    }

    method DeleteNonAdminRestores() returns (outcome: Outcome)
      requires Ready()
      modifies client
      ensures client.Valid() && (outcome == Continue ==> Ready())
      ensures client.audited && TokenFree(old(client.store), client.token) ==> TokenFree(client.store, client.token)
      ensures old(Undisturbed()) ==>
                && outcome == Continue && Undisturbed() && DependentsDeleted(old(client.store), client.store, client.me, {})
                && RestoresGo(old(client.store), client.store, client.me.ns, client.me.name)
    {
      hide Inv, Runs.IsRun, Rely, Knows, TokenFree, RestoresGo;
      ghost var s0 := client.store;
      var list := client.List(NAR, client.me.ns);
      ghost var s1 := client.store;
      if client.audited {
        KnowledgeIsStable(client.cfg, client.me, client.token, s0, s1, nab);
        TokenStaysFree(client.cfg, client.me, client.token, s0, s1);
      }
      if list.Err? {
        return Failed;
      }
      var items := list.value;
      ghost var rest := set id | id in s1.crs && DependsOn(id, s1.crs[id], client.me);
      DependentsListed(s1, client.me, items, rest);
      hide DependsOn, DoDelete, DependentsDeleted, RestOf, IsListing;
      for i := 0 to |items|
        invariant Ready()
        invariant client.audited && TokenFree(s0, client.token) ==> TokenFree(client.store, client.token)
        invariant rest == RestOf(items, i, client.me)
        invariant old(Undisturbed()) ==> Undisturbed() && DependentsDeleted(s0, client.store, client.me, rest)
        invariant old(Undisturbed()) ==> forall j | i <= j < |items| :: items[j].0 in client.store.crs
      {
        RestShrinks(s1, NAR, client.me, items, i);
        var (id, nar) := items[i];
        if DependsOn(id, nar, client.me) {
          ghost var s2 := client.store;
          var ok := DeleteRestore(id);
          if !ok {
            return Failed;
          }
          if old(Undisturbed()) {
            OneMoreDeleted(s0, s2, client.me, rest, id);
            OthersRemain(s2, id);
          }
        }
        rest := rest - {id};
      }
      assert rest == {};
      if old(Undisturbed()) {
        DependentsAre(s0, client.store, client.me);
      }
      return Continue;
    }

    method DeleteRestore(id: Id) returns (ok: bool)
      requires Ready() && id.kind == NAR
      modifies client
      ensures client.Valid() && (ok ==> Ready())
      ensures client.audited && TokenFree(old(client.store), client.token) ==> TokenFree(client.store, client.token)
      ensures old(Undisturbed()) && id in old(client.store).crs ==>
                ok && Undisturbed() && client.store == DoDelete(old(client.store), id)
    {
      hide Inv, Runs.IsRun, Rely, Knows, TokenFree;
      ghost var s0 := client.store;
      var r, met := client.Delete(id);
      if client.audited {
        KnowledgeIsStable(client.cfg, client.me, client.token, s0, met, nab);
        OtherDeletedStillKnown(client.cfg, met, client.me, id, nab);
        TokenStaysFree(client.cfg, client.me, client.token, s0, met);
        DeleteKeepsToken(client.cfg, met, id, client.token);
      }
      return r.Ok?;
    }

    method CreateVeleroDeleteBackupRequest() returns (outcome: Outcome)
      requires Ready() && Fresh() && (client.audited ==> nab.deleting)
      modifies this`nab, client
      ensures client.Valid()
      ensures old(Undisturbed()) ==> Out(client.store, outcome) == AskStep(old(client.store), client.me, client.token)
    {
      hide Inv, Runs.IsRun, Rely, TokenFree, NothingProtected, Extends, DoWriteStatus, DoPut;
      var uuid := nab.status.uuid;
      if !nab.finalizer || uuid == "" {
        return Continue;
      }
      ghost var s0 := client.store;
      var veleroBackup := client.FindByLabel(BACKUP, OriginUuid(NAB), uuid);
      ghost var s1 := client.store;
      if client.audited {
        KnowledgeIsStable(client.cfg, client.me, client.token, s0, s1, nab);
        TokenStaysFree(client.cfg, client.me, client.token, s0, s1);
        BackupGone(client.cfg, s1, client.me, uuid);
      }
      if veleroBackup.Err? {
        return Failed;
      }
      if veleroBackup.value.None? {
        outcome := RemoveNabFinalizer();
        return;
      }
      OnlyMember(veleroBackup.value.value.0);
      var request := client.FindByLabel(DELETION, BackupNameLabel, uuid);
      ghost var s2 := client.store;
      if client.audited {
        KnowledgeIsStable(client.cfg, client.me, client.token, s1, s2, nab);
        TokenStaysFree(client.cfg, client.me, client.token, s1, s2);
      }
      if request.Err? {
        return Failed;
      }
      if request.value.None? {
        var backup := veleroBackup.value.value.0.name;
        var ref, o := DeleteRequestRef(backup, client.token), DeleteRequest(client.me, uuid, backup);
        if client.audited {
          if !client.cfg.staleReads {
            FoundIsNamed(client.cfg, s1, veleroBackup.value.value.0, uuid);
          }
          RequestMayBeAsked(client.cfg, client.me, client.token, s2, nab, backup);
        }
        var r, met := client.CreateObject(ref, o);
        return if r.Ok? then Continue else Failed;
      }
      OnlyMember(request.value.value.0);
      var was := nab.status;
      ghost var base := nab;
      nab := nab.(status := WithOutcome(was, request.value.value.1.body));
      var ok := SaveStatus(was, base);
      return if ok then Continue else Failed;
    }

    method DeleteDeleteBackupRequestObjects() returns (outcome: Outcome)
      requires Ready()
      modifies client
      ensures client.Valid() && (outcome == Continue ==> Ready())
      ensures old(Undisturbed()) ==>
                && Out(client.store, outcome) == DropRequestStep(old(client.store), client.me)
                && (outcome == Continue ==> Undisturbed())
    {
      hide Inv, Runs.IsRun, Rely, Seen, TokenFree;
      var uuid := nab.status.uuid;
      if uuid == "" {
        return Continue;
      }
      ghost var s0 := client.store;
      var request := client.FindByLabel(DELETION, BackupNameLabel, uuid);
      ghost var s1 := client.store;
      if client.audited {
        KnowledgeIsStable(client.cfg, client.me, client.token, s0, s1, nab);
      }
      if request.Err? {
        return Failed;
      }
      if request.value.Some? {
        OnlyMember(request.value.value.0);
        var r, met := client.RemoveObject(request.value.value.0);
        if client.audited {
          StillKnown(client.cfg, client.me, client.token, s1, met, client.store, nab);
        }
        if r.Err? {
          return Failed;
        }
      }
      return Continue;
    }

    method DeleteVeleroBackupObjects() returns (outcome: Outcome)
      requires Ready() && (client.audited ==> nab.deleting)
      modifies this`nab, client
      ensures client.Valid()
      ensures old(Undisturbed()) ==> Out(client.store, outcome) == LetGoStep(old(client.store), client.me, BACKUP)
    {
      hide Inv, Runs.IsRun, Rely, Seen, TokenFree, NothingProtected;
      var uuid := nab.status.uuid;
      if uuid == "" {
        return Continue;
      }
      ghost var s0 := client.store;
      var veleroBackup := client.FindByLabel(BACKUP, OriginUuid(NAB), uuid);
      ghost var s1 := client.store;
      if client.audited {
        KnowledgeIsStable(client.cfg, client.me, client.token, s0, s1, nab);
        BackupGone(client.cfg, s1, client.me, uuid);
      }
      if veleroBackup.Err? {
        return Failed;
      }
      if veleroBackup.value.Some? {
        OnlyMember(veleroBackup.value.value.0);
        var r, met := client.RemoveObject(veleroBackup.value.value.0);
        return if r.Ok? then Continue else Failed;
      }
      outcome := RemoveNabFinalizer();
    }

    method RemoveNabFinalizer() returns (outcome: Outcome)
      requires Ready()
      requires client.audited ==>
                 nab.deleting && (!client.cfg.staleReads ==> NothingProtected(client.cfg.reimports, client.store.owned, client.me, nab.status.uuid))
      modifies this`nab, client
      ensures client.Valid()
      ensures old(Undisturbed()) ==> outcome == Continue && client.store == DoWriteFinalizer(old(client.store), client.me, false)
    {
      ghost var base := nab;
      nab := nab.(finalizer := false);
      var r, met := client.UpdateFinalizer(nab, base, false);
      return if r.Ok? then Continue else Failed;
    }

    // ---- Path choice ----

    method Reconcile() returns (outcome: Outcome)
      requires client.Valid() && Fresh() && client.me.kind == NAB
      modifies this`nab, client
      ensures client.Valid()
      ensures old(client.Quiet()) ==>
                var s, t, me := old(client.store), client.store, client.me;
                if me !in s.crs then outcome == Continue && t == s
                else if s.crs[me].spec.deleteBackup then
                  var marked := MarkStep(s, me);
                  if marked.outcome == Continue then
                    exists mid :: DependentsDeleted(marked.store, mid, me, {}) && me in mid.crs
                                  && Out(t, outcome) == AskStep(mid, me, client.token)
                  else Out(t, outcome) == marked
                else if s.crs[me].deleting then Out(t, outcome) == DirectPass(s, me)
                else if SyncLabelled(s.crs[me]) then Out(t, outcome) == SyncPass(client.cfg, s, me, client.token)
                else Out(t, outcome) == CreatePass(client.cfg, s, me, client.token)
    {
      hide Inv, Runs.IsRun, Rely, Knows, TokenFree, DependentsDeleted, AskStep, DirectPass, SyncPass, CreatePass, MarkStep;
      ghost var s0 := client.store;
      var fetched := client.Get(client.me);
      if client.audited {
        TokenStaysFree(client.cfg, client.me, client.token, s0, client.store);
      }
      if fetched.Err? {
        return if fetched.error == NotFound then Continue else Failed;
      }
      nab := fetched.value;
      if nab.spec.deleteBackup {
        outcome := ReconcileDelete();
      } else if nab.deleting {
        outcome := ReconcileDirect();
      } else if SyncLabelled(nab) {
        outcome := ReconcileSync();
      } else {
        outcome := ReconcileCreate();
      }
    }

    method ReconcileDelete() returns (outcome: Outcome)
      requires Ready() && Fresh()
      modifies this`nab, client
      ensures client.Valid()
      ensures old(Undisturbed()) ==>
                var s, t, me := old(client.store), client.store, client.me;
                var marked := MarkStep(s, me);
                if marked.outcome == Continue then
                  exists mid :: DependentsDeleted(marked.store, mid, me, {}) && me in mid.crs
                                && Out(t, outcome) == AskStep(mid, me, client.token)
                else Out(t, outcome) == marked
    {
      hide Inv, Runs.IsRun, Rely, Knows, TokenFree, DependentsDeleted, AskStep, MarkStep;
      outcome := SetStatusAndConditionForDeletionAndCallDelete();
      if outcome != Continue {
        return;
      }
      ghost var s1 := client.store;
      outcome := DeleteNonAdminRestores();
      if outcome != Continue {
        return;
      }
      ghost var mid := client.store;
      outcome := CreateVeleroDeleteBackupRequest();
      if old(Undisturbed()) {
        assert DependentsDeleted(s1, mid, client.me, {}) && client.me in mid.crs;
      }
    }

    method ReconcileDirect() returns (outcome: Outcome)
      requires Ready() && (client.audited ==> nab.deleting)
      modifies this`nab, client
      ensures client.Valid()
      ensures old(Undisturbed()) ==> Out(client.store, outcome) == DirectPass(old(client.store), client.me)
    {
      hide Inv, Runs.IsRun, Rely, Knows, TokenFree, DropRequestStep, LetGoStep, DoWriteStatus, Marked;
      outcome := SetStatusForDirectKubernetesAPIDeletion();
      if outcome != Continue {
        return;
      }
      outcome := DeleteDeleteBackupRequestObjects();
      if outcome != Continue {
        return;
      }
      outcome := DeleteVeleroBackupObjects();
    }

    method ReconcileSync() returns (outcome: Outcome)
      requires Ready() && Fresh()
      modifies this`nab, client
      ensures client.Valid()
      ensures old(Undisturbed()) ==> Out(client.store, outcome) == SyncPass(client.cfg, old(client.store), client.me, client.token)
    {
      hide Inv, Runs.IsRun, Rely, Knows, TokenFree, UuidStep, FinalizerStep, BackupStep;
      outcome := SetBackupUUIDInStatus();
      if outcome != Continue {
        return;
      }
      outcome := SetFinalizerOnNonAdminBackup();
      if outcome != Continue {
        return;
      }
      outcome := CreateVeleroBackupAndSync();
    }

    method ReconcileCreate() returns (outcome: Outcome)
      requires Ready() && Fresh()
      modifies this`nab, client
      ensures client.Valid()
      ensures old(Undisturbed()) ==>
                Out(client.store, outcome) == CreatePass(client.cfg, old(client.store), client.me, client.token)
    {
      hide Inv, Runs.IsRun, Rely, Knows, TokenFree, InitStep, ValidateStep, SyncPass;
      outcome := InitNabCreate();
      if outcome != Continue {
        return;
      }
      outcome := ValidateSpec();
      if outcome != Continue {
        return;
      }
      outcome := ReconcileSync();
    }
  }

  // ---- Facts the steps rest on ----

  /** The error the branch for a backup that is gone has put together, if any: the code starts
      from none, and the second case overrides the first. */
  function ReportedError(c: Cr): Option<Message> {
    var err: Option<Message> := if SyncLabelled(c) then Some(SyncSourceMissing) else None;
    if IsTrue(c.status.conds, Queued) then Some(BackupRemoved) else err
  }

  /** That branch always has an error to report, although the code would report none for a
      backup in phase Created that was never queued: no object a session meets is one.  And the
      message it puts on the condition is that error. */
  lemma MissingBackupIsReported(cfg: Config, s: Store, id: Id, c: Cr, audited: bool)
    requires audited ==> Knows(cfg, s, id, c) && id.kind == NAB
    requires SyncLabelled(c) || c.status.phase == Created
    ensures ReportedError(c).None? <==> !SyncLabelled(c) && !IsTrue(c.status.conds, Queued)
    ensures audited ==> ReportedError(c).Some?
    ensures ReportedError(c).Some? ==>
              BackupLost(c.status).conds[Accepted] == Condition(false, VeleroBackupNotFound, ReportedError(c).value)
  {
  }

  /** Creating a Velero object under one's own NACUUID is allowed as long as one holds one's
      finalizer. */
  lemma ObjectMayBeCreated(cfg: Config, me: Id, token: string, s: Store, c: Cr, ref: Ref, o: Owned)
    requires Knows(cfg, s, me, c) && c.finalizer && c.status.uuid == ref.name != ""
    requires OwnerKind(ref.kind) == me.kind && (ref.kind == BACKUP || (ref.kind == RESTORE && !IsTrue(c.status.conds, Queued)))
    requires o.labels == OwnerLabels(me.kind, ref.name) && o.annotations == OwnerAnnotations(me)
    ensures forall t: Store | Rely(cfg, me, token, s, t) && Inv(cfg, t) && ref !in t.owned ::
              WorkerMayPut(cfg, t, me, ref, Stamped(t, o))
  {
    forall t: Store | Rely(cfg, me, token, s, t) && Inv(cfg, t) && ref !in t.owned
      ensures WorkerMayPut(cfg, t, me, ref, Stamped(t, o))
    {
      hide Rely, Inv, Seen;
      KnowledgeIsStable(cfg, me, token, s, t, c);
    }
  }

  lemma DeleteKeepsToken(cfg: Config, s: Store, id: Id, token: string)
    ensures TokenFree(s, token) ==> TokenFree(DoDelete(s, id), token)
  {
  }

  lemma OthersRemain(s: Store, id: Id)
    ensures forall i: Id | i != id && i in s.crs :: i in DoDelete(s, id).crs
  {
  }

  lemma BackupGone(cfg: Config, s: Store, me: Id, uuid: string)
    requires Inv(cfg, s) && me.kind == NAB && (!cfg.staleReads && uuid != "" ==> IssuedTo(s, me, uuid))
    ensures !cfg.staleReads && uuid != "" && Found(s, BACKUP, uuid) == {} ==> NothingProtected(cfg.reimports, s.owned, me, uuid)
    ensures |Found(s, BACKUP, uuid)| <= 1
  {
    NoneFoundNoneNamed(cfg, s, me, BACKUP, uuid);
    hide Inv;
    forall ref | ref in s.owned && Guarded(cfg.reimports, ref.kind) && OwnerKind(ref.kind) == me.kind
      ensures !cfg.staleReads && uuid != "" && Found(s, BACKUP, uuid) == {} ==> ref.name != uuid
    {
      assert ref.kind == BACKUP;
    }
  }

  lemma RequestMayBeAsked(cfg: Config, me: Id, token: string, s: Store, c: Cr, backup: string)
    requires Knows(cfg, s, me, c) && c.finalizer && c.status.uuid != "" && me.kind == NAB && TokenFree(s, token)
    requires !cfg.staleReads ==> backup == c.status.uuid && DeleteRequests(s, c.status.uuid) == {}
    ensures var ref, o := DeleteRequestRef(backup, token), DeleteRequest(me, c.status.uuid, backup);
            forall t: Store | Rely(cfg, me, token, s, t) && Inv(cfg, t) && ref !in t.owned ::
              WorkerMayPut(cfg, t, me, ref, Stamped(t, o))
  {
    var ref, o := DeleteRequestRef(backup, token), DeleteRequest(me, c.status.uuid, backup);
    assert EndsWith(ref.name, token);
    forall t: Store | Rely(cfg, me, token, s, t) && Inv(cfg, t) && ref !in t.owned
      ensures WorkerMayPut(cfg, t, me, ref, Stamped(t, o))
    {
      hide Rely, Inv, Seen, EndsWith;
      KnowledgeIsStable(cfg, me, token, s, t, c);
      TokenStaysFree(cfg, me, token, s, t);
      if !cfg.staleReads {
        NoRequestStays(cfg, me, token, s, t, c);
      }
    }
  }

  lemma NoRequestStays(cfg: Config, me: Id, token: string, s: Store, t: Store, c: Cr)
    requires Rely(cfg, me, token, s, t) && Knows(cfg, s, me, c) && c.finalizer && me.kind == NAB && !cfg.staleReads
    requires DeleteRequests(s, c.status.uuid) == {}
    ensures forall r | r in t.owned && r.kind == DELETION :: !HasValue(t.owned[r].labels, BackupNameLabel, c.status.uuid)
  {
    hide TokenFree, ShapeOk, RequestsMine, Extends, SourceOf;
    forall r | r in t.owned && r.kind == DELETION ensures !HasValue(t.owned[r].labels, BackupNameLabel, c.status.uuid) {
      assert r !in DeleteRequests(s, c.status.uuid);
      assert !ForBackup(s.owned, r, c.status.uuid);
    }
  }
}
