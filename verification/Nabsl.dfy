/**
 The NonAdminBackupStorageLocation controller: the approval protocol between a user's
 location, the request the administrator decides on, and Velero's secret and location.
 */
module Nabsl {
  import opened Objects
  import opened Specs
  import opened Cluster
  import opened Protocol
  import opened Interference
  import opened ApiClient
  import opened NabslPass
  import opened Steps
  import opened Naming
  import Runs

  class NabslReconciler {
    const client: Client
    var nabsl: Cr

    constructor (client: Client, nabsl: Cr)
      ensures this.client == client && this.nabsl == nabsl
    {
      this.client, this.nabsl := client, nabsl;
    }

    /** The copy in hand is one that was read and may still be written back. */
    ghost predicate Ready()
      reads this, client
    {
      && client.Valid() && client.me.kind == NABSL
      && (client.audited ==> Knows(client.cfg, client.store, client.me, nabsl))
    }

    ghost predicate Undisturbed()
      reads this, client
    {
      client.Quiet() && client.me in client.store.crs && client.store.crs[client.me] == nabsl
    }

    /** The NACUUID is set and the finalizer is on. */
    ghost predicate Held()
      reads this, client
    {
      client.audited ==> nabsl.finalizer && nabsl.status.uuid != ""
    }

    /** The request was found to hold the very spec in hand. */
    ghost predicate Matches()
      reads this, client
    {
      client.audited && Freezes(client.cfg, nabsl.status.uuid) && Alive(client.store.crs, client.me) ==>
        var source := SourceOf(client.store.owned, nabsl.status.uuid);
        source.Some? && source.value.fields == nabsl.spec.fields
    }

    ghost predicate Fresh()
      reads client
    {
      client.audited ==> TokenFree(client.store, client.token)
    }

    method WriteBack(ghost base: Cr) returns (ok: bool, ghost met: Store)
      requires client.Valid()
      requires client.audited ==>
                 && Knows(client.cfg, client.store, client.me, base)
                 && nabsl == base.(status := nabsl.status)
                 && StatusFollows(client.me.kind, base.status, nabsl.status)
                 && (nabsl.status.uuid == base.status.uuid
                     || (EndsWith(nabsl.status.uuid, client.token) && TokenFree(client.store, client.token)))
      modifies this`nabsl, client
      ensures client.Valid()
      ensures client.audited ==> Rely(client.cfg, client.me, client.token, old(client.store), met)
      ensures client.store == met || client.store == DoWriteStatus(met, client.me, old(nabsl).status)
      ensures client.store.owned == met.owned
      ensures client.audited && ok ==>
                && Knows(client.cfg, client.store, client.me, nabsl)
                && nabsl == base.(status := old(nabsl).status, rv := nabsl.rv)
      ensures ok ==> nabsl.status == old(nabsl).status
      ensures client.audited && TokenFree(old(client.store), client.token) && old(nabsl).status.uuid == base.status.uuid ==>
                TokenFree(client.store, client.token)
      ensures old(client.Quiet() && client.me in client.store.crs && client.store.crs[client.me].rv == nabsl.rv) ==>
                && client.Quiet() && ok && client.store == DoWriteStatus(old(client.store), client.me, old(nabsl).status)
                && client.me in client.store.crs && nabsl == client.store.crs[client.me]
    {
      var r;
      r, met := client.UpdateStatus(nabsl, base);
      ok := r.Ok?;
      if ok {
        nabsl := r.value;
      }
    }

    method InitNaBSLCreate() returns (outcome: Outcome)
      requires Ready() && Fresh()
      modifies this`nabsl, client
      ensures client.Valid() && Fresh() && (outcome != Failed ==> Ready())
      ensures old(Undisturbed()) ==>
                && Out(client.store, outcome) == InitStep(old(client.store), client.me) && Undisturbed()
    {
      if nabsl.status.phase != Unset {
        return Continue;
      }
      ghost var base := nabsl;
      nabsl := nabsl.(status := nabsl.status.(phase := New));
      var ok, met := WriteBack(base);
      return if ok then Continue else Failed;
    }

    method ValidateBslSpec() returns (err: Option<Message>)
      requires client.Valid()
      modifies client
      ensures client.Valid()
      ensures client.audited ==> Rely(client.cfg, client.me, client.token, old(client.store), client.store)
      ensures old(client.Quiet()) ==>
                && client.Quiet() && client.store == old(client.store)
                && err == LocationError(client.cfg, client.store.secrets, client.me.ns, nabsl.spec.fields)
    {
      var fields := nabsl.spec.fields;
      if client.audited {
        RelyReflexive(client.cfg, client.me, client.token, client.store);
      }
      if Default in fields && fields[Default] == Flag(true) {
        return Some(Restricted(Default));
      }
      if Credential !in fields || !fields[Credential].SecretKey? {
        return Some(Missing(Credential));
      } else if fields[Credential].secret == "" || fields[Credential].key == "" {
        return Some(Invalid(Credential));
      }
      if BackupSyncPeriod in fields && fields[BackupSyncPeriod].Num? {
        if client.cfg.syncPeriod <= fields[BackupSyncPeriod].num {
          return Some(Restricted(BackupSyncPeriod));
        }
      } else if client.cfg.defaultSyncPeriod.Some? {
        if client.cfg.syncPeriod <= client.cfg.defaultSyncPeriod.value {
          return Some(Restricted(BackupSyncPeriod));
        }
      } else if client.cfg.syncPeriod <= Minute {
        return Some(Restricted(BackupSyncPeriod));
      }
      var bad := FindViolation(client.cfg.fields, client.cfg.enforcedLocation, fields);
      if bad.Some? {
        return Some(Enforced(bad.value));
      }
      var secret := client.GetSecret(client.me.ns, fields[Credential].secret);
      return if secret.Ok? then None else Some(SecretNotFound);
    }

    method ValidateNaBSLSpec() returns (outcome: Outcome)
      requires Ready() && Fresh()
      modifies this`nabsl, client
      ensures client.Valid() && Fresh() && (outcome != Failed ==> Ready())
      ensures old(Undisturbed()) ==>
                && Out(client.store, outcome) == ValidateStep(client.cfg, old(client.store), client.me) && Undisturbed()
    {
      ghost var base, s0 := nabsl, client.store;
      var was := nabsl.status;
      var err := ValidateBslSpec();
      if client.audited {
        KnowledgeIsStable(client.cfg, client.me, client.token, s0, client.store, base);
      }
      if err.Some? {
        var updatedPhase := nabsl.status.phase != BackingOff;
        nabsl := nabsl.(status := WithCondition(nabsl.status.(phase := BackingOff), Accepted, false, BslSpecValidation, err.value));
        var updatedCondition := nabsl.status.conds != was.conds;
        if updatedPhase || updatedCondition {
          var ok, met := WriteBack(base);
        }
        return Failed;
      }
      nabsl := nabsl.(status := WithCondition(nabsl.status, Accepted, true, BslSpecValidation, NoMessage));
      var updatedCondition := nabsl.status.conds != was.conds;
      if updatedCondition {
        var ok, met := WriteBack(base);
        if !ok {
          return Failed;
        }
      }
      return Continue;
    }

    method SetVeleroBSLUUIDInNaBSLStatus() returns (outcome: Outcome)
      requires Ready() && Fresh()
      modifies this`nabsl, client
      ensures client.Valid() && (outcome != Failed ==> Ready())
      ensures outcome != Failed ==> nabsl.status.uuid != ""
      ensures old(Undisturbed()) ==>
                && Out(client.store, outcome) == UuidStep(old(client.store), client.me, client.token) && Undisturbed()
    {
      var fetched := client.Get(client.me);
      if fetched.Err? {
        return Failed;
      }
      nabsl := fetched.value;
      if nabsl.status.uuid == "" {
        ghost var base := nabsl;
        var veleroBslNACUUID := GenerateNacObjectUUID(client.me.ns, client.me.name, client.token);
        GeneratedNameBounds(client.me.ns, client.me.name, client.token);
        nabsl := nabsl.(status := nabsl.status.(uuid := veleroBslNACUUID));
        var ok, met := WriteBack(base);
        if !ok {
          return Failed;
        }
      }
      return Continue;
    }

    /** Retries an update on version conflicts, each time on a freshly read version: at most
        five attempts and at most one write, which is the update applied to exactly the
        version it replaces.  blank: the caller knows the request has no source yet. */
    method UpdateStatusWithRetry(ref: Ref, update: Owned -> Owned, ghost blank: bool)
      returns (err: Option<Error>, ghost attempts: nat, ghost met: Store)
      requires Ready() && UpdateFits(client.cfg, client.me, ref, update, blank)
      requires client.audited && !client.cfg.staleReads ==>
                 ref.name == nabsl.status.uuid != "" && (blank ==> SourceOf(client.store.owned, ref.name).None?)
      modifies client
      ensures Ready()
      ensures 1 <= attempts <= 5
      ensures client.audited ==>
                || client.writes == old(client.writes)
                || (ref in met.owned && update(met.owned[ref]) != met.owned[ref]
                    && client.writes == old(client.writes) + [(met, Put(ref, update(met.owned[ref])))])
      ensures err.Some? && err.value != Broken ==> client.writes == old(client.writes)
      ensures err == Some(Conflict) ==> attempts == 5
      ensures err.None? && client.writes == old(client.writes) ==>
                ref in client.store.owned && update(client.store.owned[ref]) == client.store.owned[ref]
      ensures old(client.Quiet()) && ref in old(client.store).owned ==>
                && client.Quiet() && err.None? && attempts == 1
                && client.store == DoPut(old(client.store), ref, update(old(client.store).owned[ref]))
    {
      hide Inv, Runs.IsRun, Rely, WorkerMayPut, SourceOf, Seen, RequestMayBecome;
      attempts, met := 0, client.store;
      err := Some(Conflict);
      for attempt := 0 to 5
        invariant Ready() && attempts == attempt && err == Some(Conflict)
        invariant client.writes == old(client.writes)
        invariant client.audited && !client.cfg.staleReads && blank ==> SourceOf(client.store.owned, ref.name).None?
        invariant attempt == 0 && old(client.Quiet()) ==> client.Quiet() && client.store == old(client.store)
        invariant attempt > 0 ==> !old(client.Quiet() && ref in client.store.owned)
      {
        attempts := attempts + 1;
        ghost var s0 := client.store;
        var fetched := client.GetObject(ref);
        if client.audited {
          KnowledgeIsStable(client.cfg, client.me, client.token, s0, client.store, nabsl);
          BlankStays(client.cfg, client.me, client.token, s0, client.store, nabsl.status.uuid);
        }
        if fetched.Err? {
          return Some(if fetched.error == Conflict then Broken else fetched.error), attempts, met;
        }
        var changed := update(fetched.value);
        if changed == fetched.value {
          return None, attempts, met;
        }
        if client.audited {
          UpdateIsAllowed(client.cfg, client.me, client.token, client.store, ref, fetched.value, update, blank, nabsl.status.uuid);
        }
        ghost var s1 := client.store;
        var r;
        r, met := client.UpdateObject(ref, changed, fetched.value);
        if client.audited {
          StillKnown(client.cfg, client.me, client.token, s1, met, client.store, nabsl);
          if r.Err? && r.error != Broken {
            BlankStays(client.cfg, client.me, client.token, s1, client.store, nabsl.status.uuid);
          }
        }
        if r.Ok? {
          return None, attempts, met;
        }
        if r.error != Conflict {
          return Some(r.error), attempts, met;
        }
      }
    }

    method CreateNonAdminRequest() returns (outcome: Outcome)
      requires Ready() && (client.audited ==> nabsl.status.uuid != "")
      modifies client
      ensures client.Valid() && (outcome != Failed ==> Ready())
      ensures old(Undisturbed()) ==>
                && Out(client.store, outcome) == RequestStep(client.cfg, old(client.store), client.me) && Undisturbed()
    {
      var uuid := nabsl.status.uuid;
      ghost var s0 := client.store;
      var found := client.FindByLabel(REQUEST, OriginUuid(NABSL), uuid);
      if client.audited {
        KnowledgeIsStable(client.cfg, client.me, client.token, s0, client.store, nabsl);
      }
      if found.Err? {
        return Failed;
      }
      if found.value.Some? {
        outcome := UpdateExistingRequest(found.value.value.0, found.value.value.1);
      } else {
        outcome := CreateRequest();
      }
    }

    method UpdateExistingRequest(ref: Ref, request: Owned) returns (outcome: Outcome)
      requires Ready() && ref.kind == REQUEST && nabsl.status.uuid != ""
      requires LabelledWith(NABSL, request, nabsl.status.uuid)
      requires !client.cfg.staleReads ==>
                 && Found(client.store, REQUEST, nabsl.status.uuid) == {ref} && client.store.owned[ref] == request
      modifies client
      ensures client.Valid() && (outcome != Failed ==> Ready())
      ensures old(Undisturbed()) ==>
                && Out(client.store, outcome) == RequestStep(client.cfg, old(client.store), client.me) && Undisturbed()
    {
      hide Inv, Runs.IsRun, Rely, Seen, WorkerMayPut, SourceOf, Extends, TokenFree, IssuedTo, RequestMayBecome, UpdateFits;
      OnlyMember(ref);
      if client.audited && !client.cfg.staleReads {
        FoundIsNamed(client.cfg, client.store, ref, nabsl.status.uuid);
      }
      PhaseFits(client.cfg, client.me, ref);
      var retryErr, _, _ := UpdateStatusWithRetry(ref, PhaseUpdated, false);
      if retryErr.Some? {
        return Failed;
      }
      if !client.cfg.requireApproval && request.body.Request? && request.body.decision != Approve {
        if client.audited {
          ApprovalIsAllowed(client.cfg, client.me, client.token, client.store, ref, nabsl.status.uuid);
        }
        ghost var s1 := client.store;
        var errPatch, met := client.PatchObject(ref, o => Decided(o, Approve));
        if client.audited {
          StillKnown(client.cfg, client.me, client.token, s1, met, client.store, nabsl);
        }
        if errPatch.Err? {
          return Failed;
        }
      }
      return Continue;
    }

    method CreateRequest() returns (outcome: Outcome)
      requires Ready() && nabsl.status.uuid != ""
      requires !client.cfg.staleReads ==> Found(client.store, REQUEST, nabsl.status.uuid) == {}
      modifies client
      ensures client.Valid() && (outcome != Failed ==> Ready())
      ensures old(Undisturbed()) ==>
                && Out(client.store, outcome) == RequestStep(client.cfg, old(client.store), client.me) && Undisturbed()
    {
      hide Inv, Runs.IsRun, Rely, Seen, WorkerMayPut;
      var uuid := nabsl.status.uuid;
      var approvalDecision := Decision.Pending;
      if !client.cfg.requireApproval {
        approvalDecision := Approve;
      }
      var ref := Ref(REQUEST, uuid);
      var source := Source(uuid, client.me, nabsl.spec.fields);
      var request := NewObject(client.me, uuid, Request(approvalDecision, NoPhase, None));
      ghost var s0 := client.store;
      if client.audited {
        RequestMayBeCreated(client.cfg, client.me, client.token, client.store, ref, request);
      }
      var created, met := client.CreateObject(ref, request);
      if client.audited {
        StillKnown(client.cfg, client.me, client.token, s0, met, client.store, nabsl);
      }
      if created.Err? {
        return Failed;
      }
      ghost var s1 := client.store;
      if client.audited {
        SourceIsAllowed(client.cfg, client.me, client.token, client.store, ref, created.value, source, approvalDecision);
      }
      var updated, met1 := client.UpdateObject(ref, SourceRecorded(created.value, source, approvalDecision), created.value);
      if client.audited {
        StillKnown(client.cfg, client.me, client.token, s1, met1, client.store, nabsl);
        if updated.Err? && updated.error != Broken {
          BlankStays(client.cfg, client.me, client.token, s1, client.store, uuid);
        }
      }
      if updated.Err? {
        if updated.error != Conflict {
          return Failed;
        }
        var retryErr, _, _ := UpdateStatusWithRetry(ref, o => SourceRecorded(o, source, approvalDecision), true);
        if retryErr.Some? {
          return Failed;
        }
      }
      return Requeue;
    }

    method SetFinalizerOnNaBSL() returns (outcome: Outcome)
      requires Ready() && (client.audited ==> nabsl.status.uuid != "")
      modifies this`nabsl, client
      ensures client.Valid() && (outcome != Failed ==> Ready() && Held())
      ensures old(Undisturbed()) ==>
                && Out(client.store, outcome) == FinalizerStep(old(client.store), client.me) && Undisturbed()
    {
      if !nabsl.finalizer {
        ghost var base := nabsl;
        nabsl := nabsl.(finalizer := true);
        var r, met := client.UpdateFinalizer(nabsl, base, true);
        if r.Err? || r.value.None? {
          return Failed;
        }
        nabsl := r.value.value;
      }
      return Continue;
    }

    /** Takes the Velero secret away; ends with none left under this NACUUID. */
    method DeleteVeleroBSLSecret() returns (ok: bool)
      requires Ready()
      modifies client
      ensures Ready()
      ensures client.audited && !client.cfg.staleReads && nabsl.status.uuid != "" && ok ==>
                Ref(SECRET, nabsl.status.uuid) !in client.store.owned
      ensures old(Undisturbed()) ==>
                && Undisturbed() && (ok <==> nabsl.status.uuid != "" && |Found(old(client.store), SECRET, nabsl.status.uuid)| <= 1)
                && client.store == (if ok then Dropped(old(client.store), SECRET, nabsl.status.uuid) else old(client.store))
    {
      hide Inv, Runs.IsRun, Rely;
      var uuid := nabsl.status.uuid;
      ghost var s0 := client.store;
      var found := client.FindByLabel(SECRET, OriginUuid(NABSL), uuid);
      if client.audited {
        KnowledgeIsStable(client.cfg, client.me, client.token, s0, client.store, nabsl);
        NoneFoundNoneNamed(client.cfg, client.store, client.me, SECRET, uuid);
      }
      if found.Err? {
        return false;
      }
      if found.value.None? {
        return true;
      }
      ok := DeleteFound(found.value.value.0);
    }

    /** Takes the Velero location away.  The list call is taken not to fail: the code looks at
        its result before its error. */
    method DeleteVeleroBSL() returns (ok: bool)
      requires Ready()
      modifies client
      ensures Ready()
      ensures client.audited && !client.cfg.staleReads && nabsl.status.uuid != "" && ok ==>
                Ref(BSL, nabsl.status.uuid) !in client.store.owned
      ensures client.audited && !client.cfg.staleReads && nabsl.status.uuid != "" && nabsl.finalizer
              && Ref(SECRET, nabsl.status.uuid) !in old(client.store).owned ==>
                Ref(SECRET, nabsl.status.uuid) !in client.store.owned
      ensures old(Undisturbed()) ==>
                && Undisturbed() && ok
                && client.store == Dropped(old(client.store), BSL, nabsl.status.uuid)
    {
      hide Inv, Runs.IsRun, Rely;
      var uuid := nabsl.status.uuid;
      ghost var s0 := client.store;
      var found := client.FindByLabel(BSL, OriginUuid(NABSL), uuid, true);
      if client.audited {
        KnowledgeIsStable(client.cfg, client.me, client.token, s0, client.store, nabsl);
        NoneFoundNoneNamed(client.cfg, client.store, client.me, BSL, uuid);
        AbsenceStays(client.cfg, client.me, client.token, s0, client.store, nabsl, SECRET);
      }
      if found.Err? || found.value.None? {
        return true;
      }
      ok := DeleteFound(found.value.value.0);
    }

    method DeleteFound(ref: Ref) returns (ok: bool)
      requires Ready() && Protected(ref.kind) && OwnerKind(ref.kind) == NABSL && nabsl.status.uuid != ""
      requires !client.cfg.staleReads ==>
                 Found(client.store, ref.kind, nabsl.status.uuid) == {ref} && ref in client.store.owned
      modifies client
      ensures Ready()
      ensures client.audited && !client.cfg.staleReads && nabsl.status.uuid != "" && ok ==>
                Ref(ref.kind, nabsl.status.uuid) !in client.store.owned
      ensures client.audited && !client.cfg.staleReads && nabsl.status.uuid != "" && nabsl.finalizer
              && ref.kind != SECRET && Ref(SECRET, nabsl.status.uuid) !in old(client.store).owned ==>
                Ref(SECRET, nabsl.status.uuid) !in client.store.owned
      ensures old(Undisturbed()) ==>
                && Undisturbed() && ok && client.store == Dropped(old(client.store), ref.kind, nabsl.status.uuid)
    {
      hide Inv, Runs.IsRun, Rely;
      OnlyMember(ref);
      ghost var s0 := client.store;
      var r, met := client.RemoveObject(ref);
      ok := r.Ok?;
      if client.audited {
        StillKnown(client.cfg, client.me, client.token, s0, met, client.store, nabsl);
        if !client.cfg.staleReads {
          FoundIsNamed(client.cfg, s0, ref, nabsl.status.uuid);
          AbsenceStays(client.cfg, client.me, client.token, s0, met, nabsl, SECRET);
          PlainIsNotHeld(client.cfg, client.store, client.me, ref, nabsl.status.uuid);
        }
      }
    }

    method EnsureNonAdminRequest() returns (outcome: Outcome)
      requires Ready() && Held()
      modifies this`nabsl, client
      ensures client.Valid() && (outcome != Failed ==> Ready() && Held())
      ensures outcome == Continue ==> Matches()
      ensures old(Undisturbed()) ==>
                && Out(client.store, outcome) == EnsureStep(client.cfg, old(client.store), client.me)
                && (outcome == Continue ==> Undisturbed())
    {
      hide Inv, Runs.IsRun, Rely, WithoutCondition, Withdrawn, DoWriteStatus, DecisionStep, Seen, TokenFree, Extends;
      ghost var base, s0 := nabsl, client.store;
      var was := nabsl.status;
      var found := client.FindByLabel(REQUEST, OriginUuid(NABSL), was.uuid);
      if client.audited {
        KnowledgeIsStable(client.cfg, client.me, client.token, s0, client.store, nabsl);
      }
      if found.Err? || found.value.None? || !found.value.value.1.body.Request? {
        return Failed;
      }
      var request := found.value.value.1.body;
      OnlyMember(found.value.value.0);
      if client.audited && !client.cfg.staleReads {
        FoundIsNamed(client.cfg, client.store, found.value.value.0, was.uuid);
      }
      if request.source.Some? && request.source.value.fields != nabsl.spec.fields {
        SameStatusIsNoWrite(client.store, client.me);
        nabsl := nabsl.(status := WithCondition(was, SpecUpdateApproved, false, BslSpecUpdateRejected, NoMessage));
        if nabsl.status != was {
          var ok, met := WriteBack(base);
        }
        return Failed;
      } else if request.source.None? {
        return Requeue;
      } else if request.source.value.uuid == "" || request.source.value.uuid != was.uuid {
        outcome := Withdraw(base, WithCondition(was.(phase := BackingOff), AdminApproved, false, BslSpecUpdateRejected, NoMessage));
        return;
      }
      outcome := FollowDecision(request.decision);
    }

    method FollowDecision(decision: Decision) returns (outcome: Outcome)
      requires Ready() && Held() && Matches()
      modifies this`nabsl, client
      ensures client.Valid() && (outcome != Failed ==> Ready() && Held())
      ensures outcome == Continue ==> Matches()
      ensures old(Undisturbed()) ==>
                && Out(client.store, outcome) == DecisionStep(old(client.store), client.me, decision)
                && (outcome == Continue ==> Undisturbed())
    {
      hide Inv, Runs.IsRun, Rely, WithoutCondition, Withdrawn, DoWriteStatus, Seen, TokenFree, Extends, SourceOf;
      ghost var base := nabsl;
      var was := nabsl.status;
      match decision
      case Approve =>
        SameStatusIsNoWrite(client.store, client.me);
        nabsl := nabsl.(status := WithCondition(was.(phase := New), AdminApproved, true, BslSpecApproved, NoMessage));
        if nabsl.status != was {
          ghost var s1 := client.store;
          var ok, met := WriteBack(base);
          if client.audited {
            SourceStays(client.cfg, client.me, client.token, s1, met, base);
            StatusKeepsLife(met, client.me, WithCondition(was.(phase := New), AdminApproved, true, BslSpecApproved, NoMessage));
          }
          if !ok {
            return Failed;
          }
        }
        return Continue;
      case NoDecision =>
        outcome := Withdraw(base, WithCondition(was.(phase := New), AdminApproved, false, BslSpecApprovalPending, NoMessage));
      case Pending =>
        outcome := Withdraw(base, WithCondition(was.(phase := New), AdminApproved, false, BslSpecApprovalPending, NoMessage));
      case Reject =>
        outcome := Withdraw(base, WithCondition(was.(phase := BackingOff), AdminApproved, false, BslSpecRejected, NoMessage));
      case OtherDecision(_) =>
        outcome := Withdraw(base, WithCondition(was.(phase := BackingOff), AdminApproved, false, BslSpecInvalid, NoMessage));
    }

    /** What happens to a location that is not approved: secret and location go, then the
        status says so. */
    method Withdraw(ghost base: Cr, status: Status) returns (outcome: Outcome)
      requires Ready() && base == nabsl && StatusFollows(NABSL, base.status, status) && status.uuid == base.status.uuid
      modifies this`nabsl, client
      ensures client.Valid() && outcome == Failed
      ensures old(Undisturbed()) ==> Out(client.store, outcome) == Withdrawn(old(client.store), client.me, status)
    {
      hide Inv, Runs.IsRun, Rely;
      var secretGone := DeleteVeleroBSLSecret();
      if !secretGone {
        return Failed;
      }
      var locationGone := DeleteVeleroBSL();
      if !locationGone {
        return Failed;
      }
      nabsl := nabsl.(status := WithoutCondition(WithoutCondition(status, SecretSynced), BslSynced));
      var ok, met := WriteBack(base);
      return Failed;
    }

    method SyncSecrets() returns (outcome: Outcome)
      requires Ready() && Held() && Matches()
      modifies this`nabsl, client
      ensures client.Valid() && (outcome != Failed ==> Ready() && Held() && Matches())
      ensures old(Undisturbed()) ==>
                && Out(client.store, outcome) == SecretStep(old(client.store), client.me)
                && (outcome == Continue ==> Undisturbed())
    {
      hide Inv, Runs.IsRun, Rely, Seen, TokenFree, Extends, SourceOf, SecretWritten;
      var fields, uuid := nabsl.spec.fields, nabsl.status.uuid;
      if uuid == "" || Credential !in fields || !fields[Credential].SecretKey? || fields[Credential].secret == "" {
        return Continue;
      }
      ghost var s0 := client.store;
      var sourceSecret := client.GetSecret(client.me.ns, fields[Credential].secret);
      ghost var s1 := client.store;
      if client.audited {
        KnowledgeIsStable(client.cfg, client.me, client.token, s0, s1, nabsl);
        SourceStays(client.cfg, client.me, client.token, s0, s1, nabsl);
      }
      if sourceSecret.Err? {
        return Failed;
      }
      var found := client.FindByLabel(SECRET, OriginUuid(NABSL), uuid);
      if client.audited {
        KnowledgeIsStable(client.cfg, client.me, client.token, s1, client.store, nabsl);
        SourceStays(client.cfg, client.me, client.token, s1, client.store, nabsl);
      }
      if found.Err? {
        return Failed;
      }
      outcome := WriteSecret(found.value, sourceSecret.value);
    }

    method WriteSecret(found: Option<(Ref, Owned)>, data: int) returns (outcome: Outcome)
      requires Ready() && Held() && Matches()
      requires IsResult(client.cfg, client.store, SECRET, nabsl.status.uuid, found)
      modifies this`nabsl, client
      ensures client.Valid() && (outcome != Failed ==> Ready() && Held() && Matches())
      ensures old(Undisturbed()) ==>
                && Out(client.store, outcome) == SecretWritten(old(client.store), client.me, data)
                && (outcome == Continue ==> Undisturbed())
    {
      hide Inv, Runs.IsRun, Rely, Seen, TokenFree, Extends, SourceOf, MayEnsure, Matching, DoWriteStatus, DoPut;
      var uuid := nabsl.status.uuid;
      var ref := if found.Some? then found.value.0 else Ref(SECRET, uuid);
      OnlyMember(ref);
      var blank := NewObject(client.me, uuid, Credentials(data));
      ghost var base := nabsl;
      var was := nabsl.status;
      var change := o => SecretWith(o, data);
      if client.audited {
        SecretMayBePut(client.cfg, client.me, client.token, client.store, base, ref, blank, found, data, change);
      }
      var op := client.CreateOrUpdate(ref, blank, found.Some?, change, base);
      if op.Err? {
        nabsl := nabsl.(status := WithCondition(nabsl.status, SecretSynced, false, SecretSyncFailed, NoMessage));
        if nabsl.status != was {
          var ok, met := WriteBack(base);
        }
        return Failed;
      }
      SameStatusIsNoWrite(client.store, client.me);
      outcome := RecordSecret(op.value);
    }

    method RecordSecret(op: Change) returns (outcome: Outcome)
      requires Ready() && Held() && Matches()
      modifies this`nabsl, client
      ensures client.Valid() && (outcome != Failed ==> Ready() && Held() && Matches())
      ensures old(Undisturbed()) ==>
                && outcome == Continue && Undisturbed()
                && client.store == DoWriteStatus(old(client.store), client.me, SecretStatus(old(nabsl).status, op))
    {
      hide Inv, Runs.IsRun, Rely, Seen, TokenFree, Extends, SourceOf, DoWriteStatus;
      ghost var base := nabsl;
      SameStatusIsNoWrite(client.store, client.me);
      if op != Unchanged {
        var reason := if op == WasCreated then SecretCreated else SecretUpdated;
        nabsl := nabsl.(status := WithCondition(nabsl.status, SecretSynced, true, reason, NoMessage));
        var ok := WriteSynced(base);
        if !ok {
          return Failed;
        }
      }
      return Continue;
    }

    /** Writes the status back and still knows the request. */
    method WriteSynced(ghost base: Cr) returns (ok: bool)
      requires client.Valid()
      requires client.audited ==>
                 && Knows(client.cfg, client.store, client.me, base) && base.finalizer && base.status.uuid != ""
                 && nabsl == base.(status := nabsl.status)
                 && StatusFollows(client.me.kind, base.status, nabsl.status)
                 && nabsl.status.uuid == base.status.uuid
      requires Matches() && client.me.kind == NABSL
      modifies this`nabsl, client
      ensures client.Valid() && (ok ==> Ready() && Held() && Matches())
      ensures old(client.Quiet() && client.me in client.store.crs && client.store.crs[client.me].rv == nabsl.rv) ==>
                && ok && Undisturbed() && client.store == DoWriteStatus(old(client.store), client.me, old(nabsl).status)
    {
      hide Inv, Runs.IsRun, Rely, Seen, TokenFree, Extends, SourceOf, DoWriteStatus, StatusFollows;
      ghost var s0 := client.store;
      ghost var met;
      ghost var status := nabsl.status;
      ok, met := WriteBack(base);
      if client.audited {
        SourceStays(client.cfg, client.me, client.token, s0, met, base);
        StatusKeepsLife(met, client.me, status);
      }
    }

    method CreateVeleroBSL() returns (outcome: Outcome)
      requires Ready() && Held() && Matches()
      modifies this`nabsl, client
      ensures client.Valid() && (outcome != Failed ==> Ready())
      ensures old(Undisturbed()) ==>
                && Out(client.store, outcome) == LocationStep(client.cfg, old(client.store), client.me)
                && (outcome == Continue ==> Undisturbed())
    {
      hide Inv, Runs.IsRun, Rely, Seen, TokenFree, Extends, SourceOf, LocationWritten;
      var uuid := nabsl.status.uuid;
      if uuid == "" {
        return Continue;
      }
      ghost var s0 := client.store;
      var location := client.FindByLabel(BSL, OriginUuid(NABSL), uuid);
      ghost var s1 := client.store;
      if client.audited {
        KnowledgeIsStable(client.cfg, client.me, client.token, s0, s1, nabsl);
        SourceStays(client.cfg, client.me, client.token, s0, s1, nabsl);
      }
      if location.Err? {
        return Failed;
      }
      var secret := client.FindByLabel(SECRET, OriginUuid(NABSL), uuid);
      ghost var s2 := client.store;
      if client.audited {
        KnowledgeIsStable(client.cfg, client.me, client.token, s1, s2, nabsl);
        SourceStays(client.cfg, client.me, client.token, s1, s2, nabsl);
        if location.value.Some? && !client.cfg.staleReads {
          FoundIsNamed(client.cfg, s1, location.value.value.0, uuid);
        }
        if secret.Ok? && secret.value.Some? && !client.cfg.staleReads {
          FoundIsNamed(client.cfg, s2, secret.value.value.0, uuid);
        }
      }
      if secret.Err? {
        return Failed;
      }
      if secret.value.None? {
        return Continue;
      }
      if Credential !in nabsl.spec.fields {
        return Failed;
      }
      OnlyMember(secret.value.value.0);
      outcome := WriteLocation(location.value, secret.value.value.0.name);
    }

    method WriteLocation(found: Option<(Ref, Owned)>, secretName: string) returns (outcome: Outcome)
      requires Ready() && Held() && Matches()
      requires found.Some? ==> found.value.0.kind == BSL
      requires client.audited && !client.cfg.staleReads ==>
                 secretName == nabsl.status.uuid && (found.Some? ==> found.value.0.name == nabsl.status.uuid)
      modifies this`nabsl, client
      ensures client.Valid() && (outcome != Failed ==> Ready())
      ensures old(Undisturbed()) && IsResult(client.cfg, old(client.store), BSL, old(nabsl).status.uuid, found) ==>
                && Out(client.store, outcome) == LocationWritten(client.cfg, old(client.store), client.me, secretName)
                && (outcome == Continue ==> Undisturbed())
    {
      hide Inv, Runs.IsRun, Rely, Seen, TokenFree, Extends, SourceOf, MayEnsure, Matching, DoWriteStatus, DoPut,
           LocationFields, LocationStatus;
      var uuid := nabsl.status.uuid;
      var ref := if found.Some? then found.value.0 else Ref(BSL, uuid);
      OnlyMember(ref);
      var blank := NewObject(client.me, uuid, Location(map[], false, 0));
      var fields := BuildLocationFields(secretName);
      ghost var base := nabsl;
      var change := o => LocationWith(o, fields);
      if client.audited {
        LocationMayBePut(client.cfg, client.me, client.token, client.store, base, ref, blank, found, fields, change);
      }
      var op := client.CreateOrUpdate(ref, blank, found.Some?, change, base);
      if op.Err? {
        nabsl := nabsl.(status := WithCondition(nabsl.status, BslSynced, false, BslSyncError, NoMessage));
        var ok, met := WriteBack(base);
        return Failed;
      }
      outcome := RecordLocation(op.value);
    }

    method RecordLocation(op: Change) returns (outcome: Outcome)
      requires Ready() && Held() && Matches()
      modifies this`nabsl, client
      ensures client.Valid() && (outcome != Failed ==> Ready())
      ensures old(Undisturbed()) ==>
                && outcome == Continue && Undisturbed()
                && client.store == DoWriteStatus(old(client.store), client.me, LocationStatus(old(nabsl).status, op))
    {
      hide Inv, Runs.IsRun, Rely, Seen, TokenFree, Extends, SourceOf, DoWriteStatus;
      ghost var base := nabsl;
      if op != Unchanged {
        var reason := if op == WasCreated then BslCreated else BslUpdated;
        nabsl := nabsl.(status := WithCondition(nabsl.status, BslSynced, true, reason, NoMessage));
      }
      var updatedPhase := nabsl.status.phase != Created;
      nabsl := nabsl.(status := nabsl.status.(phase := Created));
      if op != Unchanged || updatedPhase {
        var ok := WriteSynced(base);
        if !ok {
          return Failed;
        }
      } else {
        SameStatusIsNoWrite(client.store, client.me);
      }
      return Continue;
    }

    /** getEnforcedBSLSpec and the two fields set after it. */
    method BuildLocationFields(secretName: string) returns (fields: Fields)
      requires client.Valid()
      ensures fields == LocationFields(client.cfg.enforcedLocation, nabsl.spec.fields, client.me.ns, secretName)
    {
      fields := Merge(client.cfg.fields, client.cfg.enforcedLocation, nabsl.spec.fields);
      var storage := if StorageType in fields && fields[StorageType].Bucket? then fields[StorageType] else Bucket("", "", "");
      var prefix := PrefixFor(client.me.ns, storage.prefix);
      var key := if Credential in nabsl.spec.fields && nabsl.spec.fields[Credential].SecretKey?
                 then nabsl.spec.fields[Credential].key else "";
      fields := fields[Credential := SecretKey(secretName, key)];
      fields := fields[StorageType := storage.(prefix := prefix)];
    }

    method SyncStatus() returns (outcome: Outcome)
      requires Ready()
      modifies this`nabsl, client
      ensures client.Valid()
      ensures old(Undisturbed()) ==>
                && Out(client.store, outcome) == MirrorStep(old(client.store), client.me)
                && (outcome == Continue ==> Undisturbed())
    {
      hide Inv, Runs.IsRun, Rely, Seen, TokenFree, Extends;
      ghost var base, s0 := nabsl, client.store;
      var was := nabsl.status;
      var found := client.FindByLabel(BSL, OriginUuid(NABSL), was.uuid);
      if client.audited {
        KnowledgeIsStable(client.cfg, client.me, client.token, s0, client.store, nabsl);
      }
      if found.Err? {
        return Failed;
      }
      if found.value.None? {
        return Continue;
      }
      OnlyMember(found.value.value.0);
      nabsl := nabsl.(status := Mirrored(nabsl.status, found.value.value.1.body));
      SameStatusIsNoWrite(client.store, client.me);
      if nabsl.status != was {
        var ok, met := WriteBack(base);
        return if ok then Continue else Failed;
      }
      return Continue;
    }

    method InitNaBSLDelete() returns (outcome: Outcome)
      requires Ready()
      modifies this`nabsl, client
      ensures client.Valid()
      ensures outcome != Failed ==> Ready()
      ensures outcome != Failed ==> nabsl.status == old(nabsl).status.(phase := Deleting)
      ensures outcome != Failed && client.audited ==> nabsl.deleting == old(nabsl).deleting
      ensures old(Undisturbed()) ==>
                && outcome == Continue && Undisturbed()
                && client.store == DoWriteStatus(old(client.store), client.me, old(nabsl).status.(phase := Deleting))
    {
      var was := nabsl.status;
      ghost var base := nabsl;
      SameStatusIsNoWrite(client.store, client.me);
      if was.phase != Deleting {
        nabsl := nabsl.(status := was.(phase := Deleting));
        var ok, met := WriteBack(base);
        if !ok {
          return Failed;
        }
      }
      return Continue;
    }

    method DeleteNonAdminRequest() returns (outcome: Outcome)
      requires Ready() && (client.audited ==> nabsl.deleting)
      modifies client
      ensures client.Valid() && (outcome != Failed ==> Ready())
      ensures old(Undisturbed()) && nabsl.status.uuid != "" && |Found(old(client.store), REQUEST, nabsl.status.uuid)| <= 1 ==>
                && outcome == Continue && Undisturbed()
                && client.store == Dropped(old(client.store), REQUEST, nabsl.status.uuid)
    {
      hide Inv, Runs.IsRun, Rely;
      var uuid := nabsl.status.uuid;
      ghost var s0 := client.store;
      var found := client.FindByLabel(REQUEST, OriginUuid(NABSL), uuid);
      ghost var s1 := client.store;
      if client.audited {
        KnowledgeIsStable(client.cfg, client.me, client.token, s0, s1, nabsl);
      }
      if found.Err? {
        return Failed;
      }
      if found.value.None? {
        return Continue;
      }
      var ref := found.value.value.0;
      OnlyMember(ref);
      if client.audited {
        if !client.cfg.staleReads {
          FoundIsNamed(client.cfg, s1, ref, uuid);
        }
        MyRequestMayGo(client.cfg, client.me, client.token, s1, nabsl, ref);
      }
      var r, met := client.RemoveObject(ref);
      if client.audited {
        StillKnown(client.cfg, client.me, client.token, s1, met, client.store, nabsl);
      }
      return if r.Ok? then Continue else Failed;
    }

    /** Every backup of the namespace that is stored in this location is deleted with it. */
    method DeleteNonAdminBackups() returns (outcome: Outcome)
      requires Ready() && (client.audited ==> nabsl.finalizer)
      modifies client
      ensures client.Valid() && (outcome != Failed ==> Ready())
      ensures client.audited && !client.cfg.staleReads
              && NothingProtected(client.cfg.reimports, old(client.store).owned, client.me, nabsl.status.uuid) ==>
                NothingProtected(client.cfg.reimports, client.store.owned, client.me, nabsl.status.uuid)
      ensures old(Undisturbed()) ==>
                && outcome == Continue && Undisturbed() && DependentsDeleted(old(client.store), client.store, client.me, {})
                && BackupsGo(old(client.store), client.store, client.me.ns, client.me.name)
    {
      hide Inv, Runs.IsRun, Rely, NothingProtected, Knows, BackupsGo;
      ghost var s0 := client.store;
      var list := client.List(NAB, client.me.ns);
      ghost var s1 := client.store;
      if client.audited {
        KnowledgeIsStable(client.cfg, client.me, client.token, s0, s1, nabsl);
        NothingProtectedStays(client.cfg, client.me, client.token, s0, s1, nabsl);
      }
      if list.Err? {
        return Failed;
      }
      var items := list.value;
      ghost var rest := set id | id in s1.crs && DependsOn(id, s1.crs[id], client.me);
      DependentsListed(s1, client.me, items, rest);
      hide DependsOn, DoDelete, DependentsDeleted, RestOf, IsListing;
      for i := 0 to |items|
        invariant Ready()
        invariant client.audited && !client.cfg.staleReads && NothingProtected(client.cfg.reimports, s0.owned, client.me, nabsl.status.uuid) ==>
                    NothingProtected(client.cfg.reimports, client.store.owned, client.me, nabsl.status.uuid)
        invariant rest == RestOf(items, i, client.me)
        invariant old(Undisturbed()) ==> Undisturbed() && DependentsDeleted(s0, client.store, client.me, rest)
      {
        RestShrinks(s1, NAB, client.me, items, i);
        var (id, nab) := items[i];
        if DependsOn(id, nab, client.me) {
          ghost var s2 := client.store;
          var ok := DeleteBackup(id);
          if !ok {
            return Failed;
          }
          if old(Undisturbed()) {
            OneMoreDeleted(s0, s2, client.me, rest, id);
          }
        }
        rest := rest - {id};
      }
      assert rest == {};
      if old(Undisturbed()) {
        DependentsAre(s0, client.store, client.me);
      }
      return Continue;
    }

    method DeleteBackup(id: Id) returns (ok: bool)
      requires Ready() && (client.audited ==> nabsl.finalizer) && id.kind == NAB
      modifies client
      ensures client.Valid() && (ok ==> Ready())
      ensures client.audited && !client.cfg.staleReads
              && NothingProtected(client.cfg.reimports, old(client.store).owned, client.me, nabsl.status.uuid) ==>
                NothingProtected(client.cfg.reimports, client.store.owned, client.me, nabsl.status.uuid)
      ensures old(Undisturbed()) ==> ok && Undisturbed() && client.store == DoDelete(old(client.store), id)
    {
      hide Inv, Runs.IsRun, Rely, NothingProtected, Knows;
      ghost var s0 := client.store;
      var r, met := client.Delete(id);
      if client.audited {
        KnowledgeIsStable(client.cfg, client.me, client.token, s0, met, nabsl);
        OtherDeletedStillKnown(client.cfg, met, client.me, id, nabsl);
        NothingProtectedStays(client.cfg, client.me, client.token, s0, met, nabsl);
      }
      return r.Ok? || r.error == NotFound;
    }

    method RemoveNaBSLFinalizer() returns (outcome: Outcome)
      requires Ready()
      requires client.audited ==>
                 nabsl.deleting && (!client.cfg.staleReads ==> NothingProtected(client.cfg.reimports, client.store.owned, client.me, nabsl.status.uuid))
      modifies this`nabsl, client
      ensures client.Valid()
      ensures old(Undisturbed()) ==> outcome == Continue && client.store == DoWriteFinalizer(old(client.store), client.me, false)
    {
      if !nabsl.finalizer {
        return Continue;
      }
      ghost var base := nabsl;
      nabsl := nabsl.(finalizer := false);
      var r, met := client.UpdateFinalizer(nabsl, base, false);
      return if r.Ok? then Continue else Failed;
    }

    /** The steps for a location marked for deletion. */
    method ReconcileDelete() returns (outcome: Outcome)
      requires Ready() && (client.audited ==> nabsl.deleting)
      modifies this`nabsl, client
      ensures client.Valid()
      ensures old(Undisturbed()) && client.audited ==>
                outcome == Continue && CleanedUp(old(client.store), client.store, client.me, old(nabsl).status.uuid)
    {
      hide Inv, Runs.IsRun, Rely, DoWriteStatus, DoWriteFinalizer, Dropped, DependentsDeleted, CleanedUp, Found, NothingProtected;
      ghost var s0, uuid := client.store, nabsl.status.uuid;
      outcome := InitNaBSLDelete();
      if outcome == Failed {
        return;
      }
      ghost var s1 := client.store;
      if client.audited {
        AtMostOneFound(client.cfg, s1, REQUEST, nabsl.status.uuid);
        AtMostOneFound(client.cfg, s1, SECRET, nabsl.status.uuid);
        AtMostOneFound(client.cfg, s1, BSL, nabsl.status.uuid);
      }
      outcome := DeleteNonAdminRequest();
      if outcome == Failed {
        return;
      }
      ghost var s2 := client.store;
      if client.audited {
        AtMostOneFound(client.cfg, s2, SECRET, nabsl.status.uuid);
      }
      var secretGone := DeleteVeleroBSLSecret();
      if !secretGone {
        return Failed;
      }
      ghost var s3 := client.store;
      var locationGone := DeleteVeleroBSL();
      if !locationGone {
        return Failed;
      }
      ghost var s4 := client.store;
      if client.audited {
        BothGone(client.cfg, s4, client.me, nabsl);
      }
      outcome := DeleteNonAdminBackups();
      if outcome == Failed {
        return;
      }
      ghost var s5 := client.store;
      outcome := RemoveNaBSLFinalizer();
      if old(Undisturbed()) && client.audited {
        CleanUpDone(client.cfg, s0, s1, s2, s3, s4, s5, client.me, uuid);
      }
    }

    /** The steps for a location that is not marked for deletion. */
    method ReconcileCreate() returns (outcome: Outcome)
      requires Ready() && Fresh()
      modifies this`nabsl, client
      ensures client.Valid()
      ensures old(Undisturbed()) && !old(nabsl).deleting ==>
                Out(client.store, outcome) == Pass(client.cfg, old(client.store), client.me, client.token)
    {
      hide Inv, Runs.IsRun, Rely, InitStep, ValidateStep, UuidStep, RequestStep, FinalizerStep, EnsureStep, SecretStep,
           LocationStep, MirrorStep, Knows, TokenFree;
      outcome := InitNaBSLCreate();
      if outcome != Continue {
        return;
      }
      outcome := ValidateNaBSLSpec();
      if outcome != Continue {
        return;
      }
      outcome := SetVeleroBSLUUIDInNaBSLStatus();
      if outcome != Continue {
        return;
      }
      outcome := CreateNonAdminRequest();
      if outcome != Continue {
        return;
      }
      outcome := SetFinalizerOnNaBSL();
      if outcome != Continue {
        return;
      }
      outcome := EnsureNonAdminRequest();
      if outcome != Continue {
        return;
      }
      outcome := SyncSecrets();
      if outcome != Continue {
        return;
      }
      outcome := CreateVeleroBSL();
      if outcome != Continue {
        return;
      }
      outcome := SyncStatus();
    }

    method Reconcile() returns (outcome: Outcome)
      requires client.Valid() && Fresh() && client.me.kind == NABSL
      modifies this`nabsl, client
      ensures client.Valid()
      ensures old(client.Quiet()) ==>
                var s, me := old(client.store), client.me;
                if me !in s.crs then outcome == Continue && client.store == s
                else if s.crs[me].deleting then
                  client.audited ==> outcome == Continue && CleanedUp(s, client.store, me, s.crs[me].status.uuid)
                else Out(client.store, outcome) == Pass(client.cfg, s, me, client.token)
    {
      hide Inv, Runs.IsRun, Pass, CleanedUp, Knows, TokenFree;
      ghost var s0 := client.store;
      var fetched := client.Get(client.me);
      if client.audited {
        TokenStaysFree(client.cfg, client.me, client.token, s0, client.store);
      }
      if fetched.Err? {
        return if fetched.error == NotFound then Continue else Failed;
      }
      nabsl := fetched.value;
      if nabsl.deleting {
        outcome := ReconcileDelete();
      } else {
        outcome := ReconcileCreate();
      }
    }
  }

  /** What an update must leave alone for the worker to be allowed to write it. */
  ghost predicate UpdateFits(cfg: Config, me: Id, ref: Ref, update: Owned -> Owned, blank: bool) {
    && ref.kind == REQUEST
    && (forall o: Owned :: update(o).rv == o.rv && update(o).held == o.held && KeepsMetadata(o, update(o)))
    && (forall o: Owned | o.body.Request? && (blank ==> o.body.source.None?) ::
          RequestMayBecome(cfg, me, ref.name, o.body, update(o).body))
  }

  lemma PhaseFits(cfg: Config, me: Id, ref: Ref)
    requires ref.kind == REQUEST
    ensures UpdateFits(cfg, me, ref, PhaseUpdated, false)
  {
  }

  lemma BlankStays(cfg: Config, me: Id, token: string, s: Store, t: Store, uuid: string)
    requires Rely(cfg, me, token, s, t) && Inv(cfg, t)
    ensures !cfg.staleReads && IssuedTo(s, me, uuid) && SourceOf(s.owned, uuid).None? ==> SourceOf(t.owned, uuid).None?
  {
    hide CrsOk, NamesOk, OwnersOk, RequestsOk, PlainOk, DeletionsOk, FrozenOk, VersionsOk, SyncLabelsOk, OwnUuids,
         TokenFree;
    var ref := Ref(REQUEST, uuid);
    if !cfg.staleReads && IssuedTo(s, me, uuid) && ref in t.owned {
      assert NameIssued(t.issued, ref, t.owned[ref]);
    }
  }

  lemma UpdateIsAllowed(cfg: Config, me: Id, token: string, s: Store, ref: Ref, base: Owned, update: Owned -> Owned,
                        blank: bool, uuid: string)
    requires Inv(cfg, s) && me.kind == NABSL && UpdateFits(cfg, me, ref, update, blank)
    requires ref in s.owned && s.owned[ref] == base
    requires !cfg.staleReads ==> IssuedTo(s, me, uuid) && ref.name == uuid && (blank ==> SourceOf(s.owned, uuid).None?)
    ensures forall t: Store | Rely(cfg, me, token, s, t) && Inv(cfg, t) && ref in t.owned && t.owned[ref] == base ::
              WorkerMayPut(cfg, t, me, ref, update(base))
  {
    if !cfg.staleReads {
      RequestTyped(cfg, s, ref);
    }
    forall t: Store | Rely(cfg, me, token, s, t) && Inv(cfg, t) && ref in t.owned && t.owned[ref] == base
      ensures WorkerMayPut(cfg, t, me, ref, update(base))
    {
      hide Inv, TokenFree, StillMine, RequestsMine;
      assert !cfg.staleReads ==> IssuedTo(t, me, uuid);
    }
  }

  lemma RequestTyped(cfg: Config, s: Store, ref: Ref)
    requires Inv(cfg, s) && !cfg.staleReads && ref in s.owned && ref.kind == REQUEST && ref.name in s.issued
    ensures s.owned[ref].body.Request? && Claimed(ref, s.owned[ref]) && !s.owned[ref].held
  {
    hide CrsOk, NamesOk, OwnersOk, DeletionsOk, FrozenOk, VersionsOk, SyncLabelsOk, OwnUuids;
    assert NameIssued(s.issued, ref, s.owned[ref]);
    assert RequestOk(s.issued, ref, s.owned[ref]);
    assert PlainObject(ref, s.owned[ref]);
  }

  lemma ApprovalIsAllowed(cfg: Config, me: Id, token: string, s: Store, ref: Ref, uuid: string)
    requires Inv(cfg, s) && me.kind == NABSL && ref.kind == REQUEST && !cfg.requireApproval
    requires !cfg.staleReads ==> IssuedTo(s, me, uuid) && ref.name == uuid
    ensures forall t: Store | Rely(cfg, me, token, s, t) && Inv(cfg, t) && ref in t.owned ::
              WorkerMayPut(cfg, t, me, ref, Decided(t.owned[ref], Approve))
  {
    forall t: Store | Rely(cfg, me, token, s, t) && Inv(cfg, t) && ref in t.owned
      ensures WorkerMayPut(cfg, t, me, ref, Decided(t.owned[ref], Approve))
    {
      hide Inv, TokenFree, StillMine, RequestsMine;
      if !cfg.staleReads {
        assert IssuedTo(t, me, uuid);
        RequestTyped(cfg, t, ref);
      }
    }
  }

  lemma SourceIsAllowed(cfg: Config, me: Id, token: string, s: Store, ref: Ref, created: Owned, source: Source,
                        decision: Decision)
    requires me.kind == NABSL && ref.kind == REQUEST && created.body.Request? && created.body.source.None?
    requires source.uuid == ref.name && source.id == me
    requires !cfg.staleReads ==> IssuedTo(s, me, ref.name)
    ensures forall t: Store | Rely(cfg, me, token, s, t) && Inv(cfg, t) && ref in t.owned && t.owned[ref] == created ::
              WorkerMayPut(cfg, t, me, ref, SourceRecorded(created, source, decision))
  {
    forall t: Store | Rely(cfg, me, token, s, t) && Inv(cfg, t) && ref in t.owned && t.owned[ref] == created
      ensures WorkerMayPut(cfg, t, me, ref, SourceRecorded(created, source, decision))
    {
      hide Inv, TokenFree, StillMine, RequestsMine;
      assert !cfg.staleReads ==> IssuedTo(t, me, ref.name);
    }
  }

  lemma RequestMayBeCreated(cfg: Config, me: Id, token: string, s: Store, ref: Ref, o: Owned)
    requires me.kind == NABSL && ref.kind == REQUEST && o.body.Request? && o.body.source.None? && !o.held
    requires o.labels == OwnerLabels(me.kind, ref.name) && o.annotations == OwnerAnnotations(me)
    requires !cfg.staleReads ==> IssuedTo(s, me, ref.name)
    ensures forall t: Store | Rely(cfg, me, token, s, t) && Inv(cfg, t) && ref !in t.owned ::
              WorkerMayPut(cfg, t, me, ref, Stamped(t, o))
  {
    forall t: Store | Rely(cfg, me, token, s, t) && Inv(cfg, t) && ref !in t.owned
      ensures WorkerMayPut(cfg, t, me, ref, Stamped(t, o))
    {
      hide Inv, TokenFree, StillMine, RequestsMine;
      assert !cfg.staleReads ==> IssuedTo(t, me, ref.name);
    }
  }

  // ---- What the creating steps rest on ----

  lemma StatusKeepsLife(s: Store, id: Id, st: Status)
    ensures Alive(DoWriteStatus(s, id, st).crs, id) == Alive(s.crs, id)
  {
  }


  /** What a lookup by the NACUUID label hands back. */
  ghost predicate IsResult(cfg: Config, s: Store, kind: OwnedKind, uuid: string, found: Option<(Ref, Owned)>) {
    && (found.Some? ==> found.value.0.kind == kind)
    && (!cfg.staleReads ==>
          match found
          case None => Found(s, kind, uuid) == {}
          case Some((ref, o)) => Found(s, kind, uuid) == {ref} && ref in s.owned && s.owned[ref] == o)
  }

  /** The object under this name is mine to write as long as I hold my finalizer. */
  lemma MineToPut(cfg: Config, me: Id, token: string, s: Store, t: Store, c: Cr, ref: Ref)
    requires Rely(cfg, me, token, s, t) && Inv(cfg, t) && Knows(cfg, s, me, c) && !cfg.staleReads
    requires c.finalizer && c.status.uuid == ref.name != "" && ref.kind in {BSL, SECRET} && me.kind == NABSL
    ensures Holds(t.crs, me, ref.name) && (ref in t.owned ==> !t.owned[ref].held)
  {
    hide Inv, Rely, Seen;
    KnowledgeIsStable(cfg, me, token, s, t, c);
    PlainIsNotHeld(cfg, t, me, ref, ref.name);
  }

  lemma SecretMayBePut(cfg: Config, me: Id, token: string, s: Store, c: Cr, ref: Ref, blank: Owned,
                       found: Option<(Ref, Owned)>, data: int, change: Owned -> Owned)
    requires Inv(cfg, s) && Knows(cfg, s, me, c) && c.finalizer && c.status.uuid != "" && me.kind == NABSL
    requires IsResult(cfg, s, SECRET, c.status.uuid, found)
    requires ref == if found.Some? then found.value.0 else Ref(SECRET, c.status.uuid)
    requires blank == NewObject(me, c.status.uuid, Credentials(data)) && forall o :: change(o) == SecretWith(o, data)
    ensures MayEnsure(cfg, me, token, s, ref, blank, found.Some?, change)
  {
    if found.Some? && !cfg.staleReads {
      FoundIsNamed(cfg, s, ref, c.status.uuid);
    }
    forall t: Store | Rely(cfg, me, token, s, t) && Inv(cfg, t)
      ensures if ref in t.owned then WorkerMayPut(cfg, t, me, ref, change(t.owned[ref]))
              else found.None? ==> WorkerMayPut(cfg, t, me, ref, change(blank))
    {
      hide Inv, Rely, Knows, IsResult;
      if !cfg.staleReads {
        MineToPut(cfg, me, token, s, t, c, ref);
      }
    }
  }

  lemma LocationPutAllowed(cfg: Config, me: Id, t: Store, ref: Ref, o: Owned, fields: Fields)
    requires ref.kind == BSL && me.kind == NABSL
    requires if ref in t.owned then o == t.owned[ref]
             else o.labels == OwnerLabels(me.kind, ref.name) && o.annotations == OwnerAnnotations(me)
    requires !cfg.staleReads ==> Holds(t.crs, me, ref.name) && !o.held
    requires Freezes(cfg, ref.name) && Alive(t.crs, me) ==>
               && SourceOf(t.owned, ref.name).Some?
               && fields == LocationFields(cfg.enforcedLocation, SourceOf(t.owned, ref.name).value.fields, me.ns, ref.name)
    ensures WorkerMayPut(cfg, t, me, ref, LocationWith(o, fields))
  {
    hide LocationFields, SourceOf;
  }

  lemma LocationMayBePut(cfg: Config, me: Id, token: string, s: Store, c: Cr, ref: Ref, blank: Owned,
                         found: Option<(Ref, Owned)>, fields: Fields, change: Owned -> Owned)
    requires Inv(cfg, s) && Knows(cfg, s, me, c) && c.finalizer && c.status.uuid != "" && me.kind == NABSL
    requires ref == if found.Some? then found.value.0 else Ref(BSL, c.status.uuid)
    requires ref.kind == BSL && (!cfg.staleReads ==> ref.name == c.status.uuid)
    requires blank == NewObject(me, c.status.uuid, Location(map[], false, 0)) && forall o :: change(o) == LocationWith(o, fields)
    requires Freezes(cfg, c.status.uuid) && Alive(s.crs, me) ==>
               && SourceOf(s.owned, c.status.uuid).Some?
               && fields == LocationFields(cfg.enforcedLocation, SourceOf(s.owned, c.status.uuid).value.fields,
                                           me.ns, c.status.uuid)
    ensures MayEnsure(cfg, me, token, s, ref, blank, found.Some?, change)
  {
    forall t: Store | Rely(cfg, me, token, s, t) && Inv(cfg, t)
      ensures if ref in t.owned then WorkerMayPut(cfg, t, me, ref, change(t.owned[ref]))
              else found.None? ==> WorkerMayPut(cfg, t, me, ref, change(blank))
    {
      hide Inv, Rely, Knows, LocationFields, SourceOf, Holds, WorkerMayPut, LocationWith, MayEnsure;
      if !cfg.staleReads {
        MineToPut(cfg, me, token, s, t, c, ref);
        SourceStays(cfg, me, token, s, t, c);
      }
      if ref in t.owned {
        LocationPutAllowed(cfg, me, t, ref, t.owned[ref], fields);
      } else if found.None? {
        LocationPutAllowed(cfg, me, t, ref, blank, fields);
      }
    }
  }

  // ---- Deletion ----

  lemma MyRequestMayGo(cfg: Config, me: Id, token: string, s: Store, c: Cr, ref: Ref)
    requires Knows(cfg, s, me, c) && c.deleting && c.finalizer && me.kind == NABSL && ref.kind == REQUEST
    requires !cfg.staleReads ==> ref.name == c.status.uuid
    ensures forall t: Store | Rely(cfg, me, token, s, t) && Inv(cfg, t) :: MayRemove(cfg, t, Worker(me), ref)
  {
    forall t: Store | Rely(cfg, me, token, s, t) && Inv(cfg, t) ensures MayRemove(cfg, t, Worker(me), ref) {
      hide Rely, Inv, Seen;
      KnowledgeIsStable(cfg, me, token, s, t, c);
    }
  }

  lemma BothGone(cfg: Config, s: Store, me: Id, c: Cr)
    requires Knows(cfg, s, me, c) && c.deleting && me.kind == NABSL
    requires !cfg.staleReads ==> Ref(SECRET, c.status.uuid) !in s.owned && Ref(BSL, c.status.uuid) !in s.owned
    ensures !cfg.staleReads ==> NothingProtected(cfg.reimports, s.owned, me, c.status.uuid)
    ensures c.finalizer && c.status.uuid != ""
  {
    forall ref | ref in s.owned && Guarded(cfg.reimports, ref.kind) && OwnerKind(ref.kind) == me.kind
      ensures !cfg.staleReads ==> ref.name != c.status.uuid
    {
      assert ref.kind in {BSL, SECRET};
    }
  }

  /** What an undisturbed deleting pass leaves: the location, its request, its secret and its
      Velero location are gone, the backups stored in it are gone or marked, all else is as it was. */
  ghost predicate CleanedUp(s: Store, t: Store, me: Id, uuid: string) {
    && me !in t.crs
    && ObjectsCleanedUp(s, t, uuid)
    && (forall id | id != me ::
          if id in s.crs && id.kind == NAB && id.ns == me.ns && StrOf(s.crs[id].spec.fields, StorageLocation) == me.name
          then DeletedOrMarked(s.crs[id], t, id)
          else SameCr(s, t, id))
  }

  ghost predicate ObjectsCleanedUp(s: Store, t: Store, uuid: string) {
    && Ref(REQUEST, uuid) !in t.owned && Ref(SECRET, uuid) !in t.owned && Ref(BSL, uuid) !in t.owned
    && (forall ref: Ref | ref.name != uuid || ref.kind !in {REQUEST, BSL, SECRET} ::
          (ref in s.owned <==> ref in t.owned) && (ref in s.owned ==> t.owned[ref] == s.owned[ref]))
  }

  /** Dropping touches nothing but the object named by the NACUUID. */
  lemma DroppedIsNamed(cfg: Config, s: Store, kind: OwnedKind, uuid: string)
    requires Inv(cfg, s) && kind != DELETION && uuid != ""
    ensures var t := Dropped(s, kind, uuid);
            && t.crs == s.crs && t.issued == s.issued
            && (Found(s, kind, uuid) == {Ref(kind, uuid)} && Ref(kind, uuid) in t.owned ==> t.owned[Ref(kind, uuid)].held)
            && (Ref(kind, uuid) !in s.owned ==> Ref(kind, uuid) !in t.owned)
            && (forall ref: Ref | ref != Ref(kind, uuid) ::
                  (ref in s.owned <==> ref in t.owned) && (ref in s.owned ==> t.owned[ref] == s.owned[ref]))
  {
    hide Inv, Found, DoRemove;
    AtMostOneFound(cfg, s, kind, uuid);
    OnlyMember(Ref(kind, uuid));
    RemovedAlone(s, Ref(kind, uuid));
    if |Found(s, kind, uuid)| == 1 {
      assert Found(s, kind, uuid) == {Ref(kind, uuid)};
    }
  }

  lemma RemovedAlone(s: Store, removed: Ref)
    ensures var t := DoRemove(s, removed);
            && t.crs == s.crs && t.issued == s.issued && (removed in t.owned ==> removed in s.owned && t.owned[removed].held)
            && (forall ref: Ref | ref != removed ::
                  (ref in s.owned <==> ref in t.owned) && (ref in s.owned ==> t.owned[ref] == s.owned[ref]))
  {
  }

  lemma CleanUpDone(cfg: Config, s0: Store, s1: Store, s2: Store, s3: Store, s4: Store, s5: Store, me: Id, uuid: string)
    requires me in s0.crs && me.kind == NABSL && s0.crs[me].deleting && s0.crs[me].finalizer
    requires Inv(cfg, s1) && Inv(cfg, s2) && Inv(cfg, s3) && !cfg.staleReads && uuid != "" && IssuedTo(s1, me, uuid)
    requires s1 == DoWriteStatus(s0, me, s0.crs[me].status.(phase := Deleting))
    requires s2 == Dropped(s1, REQUEST, uuid) && s3 == Dropped(s2, SECRET, uuid) && s4 == Dropped(s3, BSL, uuid)
    requires Ref(SECRET, uuid) !in s4.owned && Ref(BSL, uuid) !in s4.owned
    requires DependentsDeleted(s4, s5, me, {})
    ensures CleanedUp(s0, DoWriteFinalizer(s5, me, false), me, uuid)
  {
    hide Inv, Dropped, Found, DoWriteStatus, DoWriteFinalizer;
    MyWritesAreMine(s0, s5, me, s0.crs[me].status.(phase := Deleting));
    DroppedIsNamed(cfg, s1, REQUEST, uuid);
    DroppedIsNamed(cfg, s2, SECRET, uuid);
    DroppedIsNamed(cfg, s3, BSL, uuid);
    ObjectsDropped(cfg, s1, s2, s3, s4, me, uuid);
    CrsCleanedUp(s0, s1, s4, s5, DoWriteFinalizer(s5, me, false), me);
  }

  lemma ObjectsDropped(cfg: Config, s1: Store, s2: Store, s3: Store, s4: Store, me: Id, uuid: string)
    requires Inv(cfg, s1) && Inv(cfg, s2) && Inv(cfg, s3) && !cfg.staleReads && uuid != "" && IssuedTo(s1, me, uuid)
    requires me.kind == NABSL
    requires s2 == Dropped(s1, REQUEST, uuid) && s3 == Dropped(s2, SECRET, uuid) && s4 == Dropped(s3, BSL, uuid)
    requires Ref(SECRET, uuid) !in s4.owned && Ref(BSL, uuid) !in s4.owned
    ensures ObjectsCleanedUp(s1, s4, uuid)
  {
    hide Inv, Dropped, Found;
    DroppedIsNamed(cfg, s1, REQUEST, uuid);
    DroppedIsNamed(cfg, s2, SECRET, uuid);
    DroppedIsNamed(cfg, s3, BSL, uuid);
    NoneFoundNoneNamed(cfg, s1, me, REQUEST, uuid);
    AtMostOneFound(cfg, s1, REQUEST, uuid);
    PlainIsNotHeld(cfg, s2, me, Ref(REQUEST, uuid), uuid);
  }

  lemma CrsCleanedUp(s0: Store, s1: Store, s4: Store, s5: Store, t: Store, me: Id)
    requires forall id: Id | id != me :: SameCr(s0, s1, id) && SameCr(s5, t, id)
    requires s4.crs == s1.crs && DependentsDeleted(s4, s5, me, {}) && me.kind == NABSL
    requires me in s1.crs && (SameCr(s4, s5, me) ==> me !in t.crs)
    ensures me !in t.crs
    ensures forall id | id in s0.crs && DependsOn(id, s0.crs[id], me) :: DeletedOrMarked(s0.crs[id], t, id)
    ensures forall id: Id | id != me && !(id in s0.crs && DependsOn(id, s0.crs[id], me)) :: SameCr(s0, t, id)
  {
    assert !DependsOn(me, s4.crs[me], me);
    forall id: Id | id != me && !(id in s0.crs && DependsOn(id, s0.crs[id], me)) ensures SameCr(s0, t, id) {
      assert SameCr(s0, s1, id) && SameCr(s4, s5, id) && SameCr(s5, t, id);
    }
    forall id | id in s0.crs && DependsOn(id, s0.crs[id], me) ensures DeletedOrMarked(s0.crs[id], t, id) {
      assert SameCr(s0, s1, id) && SameCr(s5, t, id);
    }
  }

  lemma MyWritesAreMine(s0: Store, s5: Store, me: Id, status: Status)
    requires me.kind == NABSL
    ensures var s1 := DoWriteStatus(s0, me, status);
            s1.owned == s0.owned
            && (forall id: Id | id != me :: SameCr(s0, s1, id))
            && (me in s0.crs ==>
                  && me in s1.crs && s1.crs[me].deleting == s0.crs[me].deleting
                  && s1.crs[me].finalizer == s0.crs[me].finalizer)
    ensures var t := DoWriteFinalizer(s5, me, false);
            t.owned == s5.owned && (forall id: Id | id != me :: SameCr(s5, t, id))
            && (me in s5.crs && s5.crs[me].finalizer && s5.crs[me].deleting ==> me !in t.crs)
  {
  }
}
