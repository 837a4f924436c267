/**
 The main theorems over whole runs.
 */
module Runs {
  import opened Objects
  import opened Specs
  import opened Cluster
  import opened Protocol

  ghost predicate Start(s: Store) {
    && s.crs == map[] && s.issued == map[] && s.clock > 0
    && forall ref | ref in s.owned :: !Claimed(ref, s.owned[ref]) && s.owned[ref].rv <= s.rv
  }

  /** Any actor makes any write it may, one after the other, from anywhere. */
  ghost predicate IsPiece(cfg: Config, states: seq<Store>, trace: seq<Step>) {
    && |states| == |trace| + 1
    && forall i {:trigger trace[i]} | 0 <= i < |trace| ::
         Enabled(cfg, states[i], trace[i]) && states[i + 1] == Apply(states[i], trace[i].op)
  }

  ghost predicate IsRun(cfg: Config, states: seq<Store>, trace: seq<Step>) {
    IsPiece(cfg, states, trace) && Start(states[0])
  }

  lemma {:induction false} RunKeepsInv(cfg: Config, states: seq<Store>, trace: seq<Step>, i: nat)
    requires IsRun(cfg, states, trace) && i <= |trace|
    ensures Inv(cfg, states[i])
  {
    if i == 0 {
    } else {
      hide Inv, Enabled, Apply;
      RunKeepsInv(cfg, states, trace, i - 1);
      StepKeepsInv(cfg, states[i - 1], trace[i - 1]);
    }
  }

  lemma RunStep(cfg: Config, states: seq<Store>, trace: seq<Step>, i: nat)
    requires IsRun(cfg, states, trace) && i < |trace|
    ensures Enabled(cfg, states[i], trace[i]) && states[i + 1] == Apply(states[i], trace[i].op)
  {
  }

  /** No orphans: a backup, restore, location or secret the controllers created exists only
      while its origin exists, holds the finalizer and carries the object's name as NACUUID.
      Where Velero brings backups back, this is so of all kinds but backups. */
  lemma NoOrphans(cfg: Config, states: seq<Store>, trace: seq<Step>, i: nat, ref: Ref)
    requires IsRun(cfg, states, trace) && i <= |trace| && !cfg.staleReads
    requires ref in states[i].owned && Guarded(cfg.reimports, ref.kind) && Claimed(ref, states[i].owned[ref])
    ensures var s, o := states[i], states[i].owned[ref];
            && OriginNamespace(OwnerKind(ref.kind)) in o.annotations && OriginName(OwnerKind(ref.kind)) in o.annotations
            && var id := OriginOf(OwnerKind(ref.kind), o);
               && id in s.crs && s.crs[id].finalizer
               && s.crs[id].status.uuid == ref.name == o.labels[OriginUuid(OwnerKind(ref.kind))]
  {
    RunKeepsInv(cfg, states, trace, i);
    assert HasOwner(states[i].crs, ref, states[i].owned[ref]) && NamedByLabel(ref, states[i].owned[ref]);
  }

  /** At most one object of a kind per NACUUID, even when every read may be stale. */
  lemma OneObjectPerNacuuid(cfg: Config, states: seq<Store>, trace: seq<Step>, i: nat, a: Ref, b: Ref, uuid: string)
    requires IsRun(cfg, states, trace) && i <= |trace|
    requires a in states[i].owned && b in states[i].owned && a.kind == b.kind != DELETION
    requires LabelledWith(OwnerKind(a.kind), states[i].owned[a], uuid)
    requires LabelledWith(OwnerKind(b.kind), states[i].owned[b], uuid)
    ensures a == b && a.name == uuid
  {
    RunKeepsInv(cfg, states, trace, i);
    assert NamedByLabel(a, states[i].owned[a]) && NamedByLabel(b, states[i].owned[b]);
  }

  /** A backup has at most one delete request at a time. */
  lemma OneDeleteRequestPerBackup(cfg: Config, states: seq<Store>, trace: seq<Step>, i: nat, backup: Ref, a: Ref, b: Ref)
    requires IsRun(cfg, states, trace) && i <= |trace| && !cfg.staleReads
    requires backup in states[i].owned && backup.kind == BACKUP && Claimed(backup, states[i].owned[backup])
    requires ForBackup(states[i].owned, a, backup.name) && ForBackup(states[i].owned, b, backup.name)
    ensures a == b
  {
    RunKeepsInv(cfg, states, trace, i);
    assert NameIssued(states[i].issued, backup, states[i].owned[backup]);
  }

  /** Every delete request of the controllers asks for the backup its label names, in every
      reachable state and even when reads are stale. */
  lemma DeleteRequestsNameTheirBackup(cfg: Config, states: seq<Store>, trace: seq<Step>, i: nat, ref: Ref)
    requires IsRun(cfg, states, trace) && i <= |trace|
    requires ref in states[i].owned && ref.kind == DELETION && Claimed(ref, states[i].owned[ref])
    ensures var o := states[i].owned[ref];
            o.body.Deletion? && BackupNameLabel in o.labels && o.labels[BackupNameLabel] == o.body.backup
  {
    RunKeepsInv(cfg, states, trace, i);
  }

  /** The write takes the delete request away, or makes it one for something else. */
  predicate Takes(s: Store, op: Op, ref: Ref) {
    op == Remove(ref) || op == Release(ref)
    || (op.Put? && op.ref == ref && ref in s.owned && !KeepsMetadata(s.owned[ref], op.o))
  }

  predicate AsksAgain(s: Store, step: Step, uuid: string) {
    && step.actor.Worker? && step.op.Put? && step.op.ref.kind == DELETION && step.op.ref !in s.owned
    && HasValue(step.op.o.labels, BackupNameLabel, uuid)
  }

  /** Over a whole run a backup gets no second delete request while nobody takes the first away. */
  lemma {:induction false} OneDeleteRequestWhileItLasts(cfg: Config, states: seq<Store>, trace: seq<Step>, i: nat, j: nat,
                                                        ref: Ref, uuid: string)
    requires IsRun(cfg, states, trace) && i <= j <= |trace| && !cfg.staleReads
    requires ForBackup(states[i].owned, ref, uuid)
    requires forall k | i <= k < j :: !Takes(states[k], trace[k].op, ref)
    ensures ForBackup(states[j].owned, ref, uuid)
    ensures j < |trace| ==> !AsksAgain(states[j], trace[j], uuid)
    decreases j
  {
    hide Enabled, Apply;
    if i < j {
      OneDeleteRequestWhileItLasts(cfg, states, trace, i, j - 1, ref, uuid);
      RequestLasts(states[j - 1], trace[j - 1].op, ref, uuid);
    }
    if j < |trace| {
      NoSecondRequest(cfg, states[j], trace[j], ref, uuid);
    }
  }

  lemma RequestLasts(s: Store, op: Op, ref: Ref, uuid: string)
    requires ForBackup(s.owned, ref, uuid) && !Takes(s, op, ref)
    ensures ForBackup(Apply(s, op).owned, ref, uuid)
  {
    hide DoCreate, DoEdit, DoDelete, DoWriteStatus, DoWriteFinalizer;
    if !op.Put? && !op.Import? && !op.Remove? && !op.Release? {
      CrWritesLeaveOwned(s, op);
    }
  }

  lemma NoSecondRequest(cfg: Config, s: Store, step: Step, ref: Ref, uuid: string)
    requires !cfg.staleReads && Enabled(cfg, s, step) && ForBackup(s.owned, ref, uuid)
    ensures !AsksAgain(s, step, uuid)
  {
  }

  /** There is a delete request for this backup. */
  ghost predicate Requested(s: Store, uuid: string) {
    exists ref :: ForBackup(s.owned, ref, uuid)
  }

  /** How many delete requests for this backup the controllers write between two moments. */
  ghost function Written(states: seq<Store>, trace: seq<Step>, i: nat, j: nat, uuid: string): nat
    requires i <= j <= |trace| < |states|
    decreases j
  {
    if i == j then 0
    else Written(states, trace, i, j - 1, uuid) + if AsksAgain(states[j - 1], trace[j - 1], uuid) then 1 else 0
  }

  /** How often the only delete request for it is taken away. */
  ghost function Taken(states: seq<Store>, trace: seq<Step>, i: nat, j: nat, uuid: string): nat
    requires i <= j <= |trace| < |states|
    decreases j
  {
    if i == j then 0
    else Taken(states, trace, i, j - 1, uuid) + if Requested(states[j - 1], uuid) && !Requested(states[j], uuid) then 1 else 0
  }

  /** Only a controller's write brings a delete request for a backup of theirs, and only when there is none. */
  lemma AskingIsAppearing(cfg: Config, s: Store, step: Step, uuid: string)
    requires Inv(cfg, s) && !cfg.staleReads && Enabled(cfg, s, step) && uuid in s.issued
    ensures AsksAgain(s, step, uuid) <==> !Requested(s, uuid) && Requested(Apply(s, step.op), uuid)
  {
    var t := Apply(s, step.op);
    if Requested(s, uuid) {
      var ref :| ForBackup(s.owned, ref, uuid);
      NoSecondRequest(cfg, s, step, ref, uuid);
    } else if AsksAgain(s, step, uuid) {
      assert ForBackup(t.owned, step.op.ref, uuid);
    } else if Requested(t, uuid) {
      var ref :| ForBackup(t.owned, ref, uuid);
      AppearingIsAsked(cfg, s, step, ref, uuid);
    }
  }

  lemma AppearingIsAsked(cfg: Config, s: Store, step: Step, ref: Ref, uuid: string)
    requires Inv(cfg, s) && !cfg.staleReads && Enabled(cfg, s, step) && uuid in s.issued
    requires !ForBackup(s.owned, ref, uuid) && ForBackup(Apply(s, step.op).owned, ref, uuid)
    ensures AsksAgain(s, step, uuid)
  {
    hide Inv, DoCreate, DoEdit, DoDelete, DoWriteStatus, DoWriteFinalizer;
    if !step.op.Put? && !step.op.Import? && !step.op.Remove? && !step.op.Release? {
      CrWritesLeaveOwned(s, step.op);
    }
  }

  /** Over any stretch of any run as many delete requests are written for a backup as are taken
      away, give or take the one there is.  So a second one is written only after the first was
      taken away, and a whole run writes at most one exactly when none is, or one and then no more. */
  lemma {:induction false} RequestsBalance(cfg: Config, states: seq<Store>, trace: seq<Step>, i: nat, j: nat, uuid: string)
    requires IsRun(cfg, states, trace) && i <= j <= |trace| && !cfg.staleReads && uuid in states[i].issued
    ensures uuid in states[j].issued
    ensures Written(states, trace, i, j, uuid) + (if Requested(states[i], uuid) then 1 else 0)
            == Taken(states, trace, i, j, uuid) + (if Requested(states[j], uuid) then 1 else 0)
    decreases j
  {
    hide Enabled, Apply, Inv, Requested, AsksAgain;
    if i < j {
      RequestsBalance(cfg, states, trace, i, j - 1, uuid);
      RunKeepsInv(cfg, states, trace, j - 1);
      RunStep(cfg, states, trace, j - 1);
      VersionsGrow(states[j - 1], trace[j - 1].op);
      AskingIsAppearing(cfg, states[j - 1], trace[j - 1], uuid);
    }
  }

  /** Phase Created of a backup or restore comes with Queued and a NACUUID. */
  lemma CreatedMeansQueued(cfg: Config, states: seq<Store>, trace: seq<Step>, i: nat, id: Id)
    requires IsRun(cfg, states, trace) && i <= |trace|
    requires id in states[i].crs && id.kind != NABSL && states[i].crs[id].status.phase == Created
    ensures IsTrue(states[i].crs[id].status.conds, Queued) && states[i].crs[id].status.uuid != ""
  {
    RunKeepsInv(cfg, states, trace, i);
    assert CrOk(states[i].rv, states[i].issued, id, states[i].crs[id]);
  }

  // ---- Write once ----

  lemma VersionsGrow(s: Store, op: Op)
    ensures s.rv <= Apply(s, op).rv && Extends(s.issued, Apply(s, op).issued)
  {
  }

  /** What one step does to an object that had, or might have had, this identity. */
  lemma StepKeepsIdentity(cfg: Config, s: Store, step: Step, id: Id, uid: nat, uuid: string)
    requires Inv(cfg, s) && Enabled(cfg, s, step) && uid <= s.rv && uuid != ""
    requires id in s.crs && s.crs[id].uid == uid ==> s.crs[id].status.uuid == uuid
    ensures var t := Apply(s, step.op);
            id in t.crs && t.crs[id].uid == uid ==>
              id in s.crs && s.crs[id].uid == uid && t.crs[id].status.uuid == uuid
              && (IsTrue(s.crs[id].status.conds, Queued) ==> IsTrue(t.crs[id].status.conds, Queued))
              && (s.crs[id].deleting ==> t.crs[id].deleting)
  {
    hide Inv, OutsiderMayPut, WorkerMayPut, MayRemove, SyncSource, NameUnused, ShapeOk, DoPut, DoRemove;
    if WritesObjects(step.op) {
      ObjectWritesLeaveCrs(s, step.op);
    }
  }

  /** The NACUUID is write-once for the life of an object, however stale the reads are. */
  lemma {:induction false} NacuuidIsWriteOnce(cfg: Config, states: seq<Store>, trace: seq<Step>, i: nat, j: nat, id: Id)
    requires IsRun(cfg, states, trace) && i <= j <= |trace|
    requires id in states[i].crs && states[i].crs[id].status.uuid != ""
    ensures id in states[j].crs && states[j].crs[id].uid == states[i].crs[id].uid ==>
              states[j].crs[id].status.uuid == states[i].crs[id].status.uuid
              && (states[i].crs[id].deleting ==> states[j].crs[id].deleting)
    ensures states[i].rv <= states[j].rv
    decreases j
  {
    hide Inv, Enabled, Apply;
    RunKeepsInv(cfg, states, trace, i);
    UidsAreOld(cfg, states[i], id);
    if i < j {
      NacuuidIsWriteOnce(cfg, states, trace, i, j - 1, id);
      RunKeepsInv(cfg, states, trace, j - 1);
      VersionsGrow(states[j - 1], trace[j - 1].op);
      StepKeepsIdentity(cfg, states[j - 1], trace[j - 1], id, states[i].crs[id].uid, states[i].crs[id].status.uuid);
    }
  }

  lemma UidsAreOld(cfg: Config, s: Store, id: Id)
    requires Inv(cfg, s) && id in s.crs
    ensures s.crs[id].uid <= s.rv
  {
    assert CrOk(s.rv, s.issued, id, s.crs[id]);
  }

  /** A NACUUID outlives its object but is never carried again: not by a later object of the same
      name either.  Only backups that Velero brings back get their old one again. */
  lemma {:induction false} GoneNacuuidStaysGone(cfg: Config, states: seq<Store>, trace: seq<Step>, i: nat, j: nat, uuid: string)
    requires IsRun(cfg, states, trace) && i <= j <= |trace| && !cfg.staleReads
    requires uuid in states[i].issued && (cfg.reimports ==> states[i].issued[uuid].kind != NAB)
    requires forall id | id in states[i].crs :: states[i].crs[id].status.uuid != uuid
    ensures uuid in states[j].issued && states[j].issued[uuid] == states[i].issued[uuid]
    ensures forall id | id in states[j].crs :: states[j].crs[id].status.uuid != uuid
    decreases j
  {
    hide Inv, Enabled, Apply;
    if i < j {
      GoneNacuuidStaysGone(cfg, states, trace, i, j - 1, uuid);
      RunKeepsInv(cfg, states, trace, j - 1);
      RunStep(cfg, states, trace, j - 1);
      VersionsGrow(states[j - 1], trace[j - 1].op);
      forall id | id in states[j].crs ensures states[j].crs[id].status.uuid != uuid {
        if states[j].crs[id].status.uuid == uuid {
          IssuedUuidStays(cfg, states[j - 1], trace[j - 1], id, uuid);
        }
      }
    }
  }

  /** So the collector, having looked for the origin of a request and not found it, may delete the
      request at any later moment, even if an object of that name has been created meanwhile. */
  lemma LateCollectionIsPermitted(cfg: Config, states: seq<Store>, trace: seq<Step>, i: nat, j: nat, ref: Ref)
    requires IsRun(cfg, states, trace) && i <= j <= |trace| && !cfg.staleReads
    requires ref in states[i].owned && ref.kind == REQUEST && ref.name in states[i].issued
    requires states[i].owned[ref].body.Request? && states[i].owned[ref].body.source.Some?
    requires states[i].owned[ref].body.source.value.id !in states[i].crs
    requires ref in states[j].owned ==> states[j].owned[ref].body == states[i].owned[ref].body
    ensures CollectorMayRemove(cfg, states[j], ref)
  {
    hide Enabled, Apply;
    RunKeepsInv(cfg, states, trace, i);
    OriginOfRequest(cfg, states[i], ref);
    GoneNacuuidStaysGone(cfg, states, trace, i, j, ref.name);
  }

  lemma OriginOfRequest(cfg: Config, s: Store, ref: Ref)
    requires Inv(cfg, s) && !cfg.staleReads && ref in s.owned && ref.kind == REQUEST && ref.name in s.issued
    requires s.owned[ref].body.Request? && s.owned[ref].body.source.Some?
    requires s.owned[ref].body.source.value.id !in s.crs
    ensures cfg.reimports ==> s.issued[ref.name].kind != NAB
    ensures forall id | id in s.crs :: s.crs[id].status.uuid != ref.name
  {
    hide OwnersOk, DeletionsOk, FrozenOk, VersionsOk, SyncLabelsOk, BackupsOk, PlainOk;
    assert NameIssued(s.issued, ref, s.owned[ref]);
    assert RequestOk(s.issued, ref, s.owned[ref]);
    forall id | id in s.crs ensures s.crs[id].status.uuid != ref.name {
    }
  }

  lemma {:induction false} IssuedLasts(cfg: Config, states: seq<Store>, trace: seq<Step>, i: nat, j: nat)
    requires IsRun(cfg, states, trace) && i <= j <= |trace|
    ensures Extends(states[i].issued, states[j].issued)
    decreases j
  {
    hide Enabled, Apply;
    if i < j {
      IssuedLasts(cfg, states, trace, i, j - 1);
      VersionsGrow(states[j - 1], trace[j - 1].op);
    }
  }

  /** For restores, locations and secrets, and for backups unless Velero brings them back, the time
      between the collector's Get and its Delete is harmless: once the origin of an object it
      listed was not found, there is never again an object of that name to hit. */
  lemma LateCollectionFindsNothing(cfg: Config, states: seq<Store>, trace: seq<Step>, h: nat, i: nat, j: nat, ref: Ref)
    requires IsRun(cfg, states, trace) && h <= i <= j <= |trace| && !cfg.staleReads
    requires ref in states[h].owned && Guarded(cfg.reimports, ref.kind) && Claimed(ref, states[h].owned[ref])
    requires var k, o := OwnerKind(ref.kind), states[h].owned[ref];
             && OriginNamespace(k) in o.annotations && OriginName(k) in o.annotations
             && OriginOf(k, o) !in states[i].crs
    ensures ref !in states[j].owned
  {
    hide Enabled, Apply;
    RunKeepsInv(cfg, states, trace, h);
    RunKeepsInv(cfg, states, trace, i);
    RunKeepsInv(cfg, states, trace, j);
    ListedIsIssued(cfg, states[h], ref);
    IssuedLasts(cfg, states, trace, h, i);
    NobodyCarries(cfg, states[i], ref.name);
    GoneNacuuidStaysGone(cfg, states, trace, i, j, ref.name);
    UncarriedIsAbsent(cfg, states[j], ref);
  }

  lemma ListedIsIssued(cfg: Config, s: Store, ref: Ref)
    requires Inv(cfg, s) && !cfg.staleReads && ref in s.owned && Guarded(cfg.reimports, ref.kind) && Claimed(ref, s.owned[ref])
    ensures HasOwner(s.crs, ref, s.owned[ref]) && IssuedTo(s, OriginOf(OwnerKind(ref.kind), s.owned[ref]), ref.name) && ref.name != ""
    ensures s.issued[ref.name].kind == OwnerKind(ref.kind)
  {
    hide NamesOk, RequestsOk, PlainOk, DeletionsOk, FrozenOk, VersionsOk, SyncLabelsOk, OwnUuids, CrsOk, IssuedNames, BackupsOk;
    assert HasOwner(s.crs, ref, s.owned[ref]);
    HolderIsIssuedTo(cfg, s, OriginOf(OwnerKind(ref.kind), s.owned[ref]), ref.name);
  }

  lemma NobodyCarries(cfg: Config, s: Store, uuid: string)
    requires Inv(cfg, s) && !cfg.staleReads && uuid in s.issued && uuid != "" && s.issued[uuid] !in s.crs
    ensures forall id | id in s.crs :: s.crs[id].status.uuid != uuid
  {
    hide NamesOk, RequestsOk, PlainOk, DeletionsOk, FrozenOk, VersionsOk, SyncLabelsOk, CrsOk, IssuedNames, BackupsOk, OwnersOk;
  }

  lemma OwnerCarries(cfg: Config, s: Store, ref: Ref)
    requires Inv(cfg, s) && !cfg.staleReads && Guarded(cfg.reimports, ref.kind) && ref.name in s.issued && ref in s.owned
    ensures exists id :: id in s.crs && s.crs[id].status.uuid == ref.name
  {
    hide NamesOk, RequestsOk, PlainOk, DeletionsOk, FrozenOk, VersionsOk, SyncLabelsOk, OwnUuids, CrsOk, BackupsOk;
    assert NameIssued(s.issued, ref, s.owned[ref]);
    assert HasOwner(s.crs, ref, s.owned[ref]);
  }

  lemma UncarriedIsAbsent(cfg: Config, s: Store, ref: Ref)
    requires Inv(cfg, s) && !cfg.staleReads && Guarded(cfg.reimports, ref.kind) && ref.name in s.issued
    requires forall id | id in s.crs :: s.crs[id].status.uuid != ref.name
    ensures ref !in s.owned
  {
    hide Inv;
    if ref in s.owned {
      OwnerCarries(cfg, s, ref);
    }
  }

  // ---- Restores run at most once ----

  /** Whoever carries this NACUUID has been queued. */
  ghost predicate Spent(s: Store, uuid: string) {
    uuid in s.issued && forall id | id in s.crs && s.crs[id].status.uuid == uuid :: IsTrue(s.crs[id].status.conds, Queued)
  }

  lemma StepKeepsSpent(cfg: Config, s: Store, step: Step, uuid: string)
    requires Inv(cfg, s) && !cfg.staleReads && Enabled(cfg, s, step) && Spent(s, uuid)
    requires cfg.reimports ==> s.issued[uuid].kind != NAB
    ensures Spent(Apply(s, step.op), uuid)
    ensures !(step.actor.Worker? && step.op.Put? && step.op.ref == Ref(RESTORE, uuid))
  {
    hide Inv, Enabled, Apply;
    var t := Apply(s, step.op);
    VersionsGrow(s, step.op);
    forall id | id in t.crs && t.crs[id].status.uuid == uuid
      ensures IsTrue(t.crs[id].status.conds, Queued)
    {
      IssuedUuidStays(cfg, s, step, id, uuid);
    }
    SpentMeansNoRestore(cfg, s, step, uuid);
  }

  lemma SpentMeansNoRestore(cfg: Config, s: Store, step: Step, uuid: string)
    requires !cfg.staleReads && Enabled(cfg, s, step) && Spent(s, uuid)
    ensures !(step.actor.Worker? && step.op.Put? && step.op.ref == Ref(RESTORE, uuid))
  {
  }

  /** Once an object with this NACUUID was recorded as queued, no controller ever creates the
      Velero Restore of that name again: not after it was removed, nor under another object. */
  lemma {:induction false} RestoreAtMostOnce(cfg: Config, states: seq<Store>, trace: seq<Step>, i: nat, j: nat, id: Id)
    requires IsRun(cfg, states, trace) && i <= j <= |trace| && !cfg.staleReads
    requires id in states[i].crs && IsTrue(states[i].crs[id].status.conds, Queued) && states[i].crs[id].status.uuid != ""
    requires id.kind == NAR || !cfg.reimports
    ensures Spent(states[j], states[i].crs[id].status.uuid) && IssuedTo(states[j], id, states[i].crs[id].status.uuid)
    ensures j < |trace| && trace[j].actor.Worker? && trace[j].op.Put? ==>
              trace[j].op.ref != Ref(RESTORE, states[i].crs[id].status.uuid)
    decreases j
  {
    hide Enabled, Apply;
    var uuid := states[i].crs[id].status.uuid;
    RunKeepsInv(cfg, states, trace, i);
    RunKeepsInv(cfg, states, trace, j);
    if i == j {
      SpentAtFirst(cfg, states[i], id);
      CarrierIsIssuedTo(cfg, states[i], id);
    } else {
      RestoreAtMostOnce(cfg, states, trace, i, j - 1, id);
      RunKeepsInv(cfg, states, trace, j - 1);
      StepKeepsSpent(cfg, states[j - 1], trace[j - 1], uuid);
      VersionsGrow(states[j - 1], trace[j - 1].op);
    }
    if j < |trace| {
      StepKeepsSpent(cfg, states[j], trace[j], uuid);
    }
  }

  lemma SpentAtFirst(cfg: Config, s: Store, id: Id)
    requires Inv(cfg, s) && !cfg.staleReads && id in s.crs
    requires IsTrue(s.crs[id].status.conds, Queued) && s.crs[id].status.uuid != ""
    ensures Spent(s, s.crs[id].status.uuid)
  {
    hide NamesOk, IssuedNames, BackupsOk, OwnersOk, RequestsOk, PlainOk, DeletionsOk, FrozenOk;
    assert CrOk(s.rv, s.issued, id, s.crs[id]);
  }

  // ---- The approved spec is frozen ----

  /** With approval required, a location whose owner is not being deleted has exactly the spec
      built from the spec recorded in its request, and uses the secret of its own NACUUID.  This
      is so for each location by itself: nothing is asked of what the collector does to the
      requests of others. */
  lemma LocationSpecIsFrozen(cfg: Config, states: seq<Store>, trace: seq<Step>, i: nat, ref: Ref)
    requires IsRun(cfg, states, trace) && i <= |trace| && Freezes(cfg, ref.name)
    requires ref in states[i].owned && ref.kind == BSL && Claimed(ref, states[i].owned[ref])
    ensures HasOwner(states[i].crs, ref, states[i].owned[ref]) && states[i].owned[ref].body.Location?
    ensures var id := OriginOf(NABSL, states[i].owned[ref]);
            !states[i].crs[id].deleting ==>
              && SourceOf(states[i].owned, ref.name).Some?
              && states[i].owned[ref].body.fields ==
                 LocationFields(cfg.enforcedLocation, SourceOf(states[i].owned, ref.name).value.fields, id.ns, ref.name)
  {
    RunKeepsInv(cfg, states, trace, i);
    assert LocationFrozen(cfg, states[i].crs, states[i].owned, ref, states[i].owned[ref]);
  }

  /** So every field of such a location is the approved one, else the enforced one, and its data is
      kept under its own namespace's prefix with its own secret, at every moment of every run. */
  lemma FrozenLocationIsAsApproved(cfg: Config, states: seq<Store>, trace: seq<Step>, i: nat, ref: Ref)
    requires IsRun(cfg, states, trace) && i <= |trace| && Freezes(cfg, ref.name)
    requires ref in states[i].owned && ref.kind == BSL && Claimed(ref, states[i].owned[ref])
    requires HasOwner(states[i].crs, ref, states[i].owned[ref]) && Alive(states[i].crs, OriginOf(NABSL, states[i].owned[ref]))
    ensures var o, source := states[i].owned[ref], SourceOf(states[i].owned, ref.name);
            && o.body.Location? && source.Some?
            && LocationAsAsked(o.body.fields, cfg.enforcedLocation, source.value.fields, OriginOf(NABSL, o).ns, ref.name)
  {
    hide LocationFields, LocationAsAsked;
    LocationSpecIsFrozen(cfg, states, trace, i, ref);
    LocationIsAsAsked(cfg.enforcedLocation, SourceOf(states[i].owned, ref.name).value.fields,
                      OriginOf(NABSL, states[i].owned[ref]).ns, ref.name);
  }

  /** As long as the owner of this NACUUID is alive it holds its finalizer, and its request has this source. */
  ghost predicate Settled(s: Store, uuid: string, source: Source) {
    && uuid in s.issued && s.issued[uuid].kind == NABSL
    && forall id | id in s.crs && s.crs[id].status.uuid == uuid && !s.crs[id].deleting ::
         s.crs[id].finalizer && SourceOf(s.owned, uuid) == Some(source)
  }

  lemma StepKeepsSettled(cfg: Config, s: Store, step: Step, uuid: string, source: Source)
    requires Inv(cfg, s) && Freezes(cfg, uuid) && Enabled(cfg, s, step)
    requires Settled(s, uuid, source) && source.id.kind == NABSL
    ensures Settled(Apply(s, step.op), uuid, source)
  {
    hide Inv, Enabled, Apply, SourceOf;
    var t := Apply(s, step.op);
    VersionsGrow(s, step.op);
    forall id | id in t.crs && t.crs[id].status.uuid == uuid && !t.crs[id].deleting
      ensures t.crs[id].finalizer && SourceOf(t.owned, uuid) == Some(source)
    {
      IssuedUuidStays(cfg, s, step, id, uuid);
      FinalizerStays(cfg, s, step, id);
      EmptyIsNotIssued(cfg, s);
      CarrierIsIssuedTo(cfg, s, id);
      SourceKept(cfg, s, step, id, uuid, source);
    }
  }

  lemma FinalizerStays(cfg: Config, s: Store, step: Step, id: Id)
    requires Inv(cfg, s) && Enabled(cfg, s, step) && id in s.crs && s.crs[id].finalizer && !s.crs[id].deleting
    ensures id in Apply(s, step.op).crs && Apply(s, step.op).crs[id].finalizer
  {
    hide Inv, WorkerMayPut, OutsiderMayPut, MayRemove, MayImport, SyncSource, NameUnused, ShapeOk, DoPut, DoRemove, DoImport;
    if WritesObjects(step.op) {
      ObjectWritesLeaveCrs(s, step.op);
    }
  }

  lemma SourceKept(cfg: Config, s: Store, step: Step, id: Id, uuid: string, source: Source)
    requires Inv(cfg, s) && Freezes(cfg, uuid) && Enabled(cfg, s, step)
    requires uuid in s.issued && SourceOf(s.owned, uuid) == Some(source)
    requires uuid != "" && IssuedTo(s, id, uuid) && Holds(s.crs, id, uuid) && !s.crs[id].deleting
    ensures Extends(s.issued, Apply(s, step.op).issued) && SourceOf(Apply(s, step.op).owned, uuid) == Some(source)
  {
    hide NamesOk, CrsOk, OwnersOk, PlainOk, DeletionsOk, FrozenOk, SyncSource, Frozen, LocationFields,
         SyncLabelsOk, OwnUuids, DoCreate, DoEdit, DoDelete, DoWriteStatus, DoWriteFinalizer;
    var ref := Ref(REQUEST, uuid);
    VersionsGrow(s, step.op);
    assert NameIssued(s.issued, ref, s.owned[ref]);
    assert RequestOk(s.issued, ref, s.owned[ref]);
    if step.op.Remove? {
      if step.actor.Worker? && step.actor.id in s.crs && s.crs[step.actor.id].status.uuid == uuid {
        CarrierIsIssuedTo(cfg, s, step.actor.id);
      }
    } else if !step.op.Put? && !step.op.Import? && !step.op.Release? {
      CrWritesLeaveOwned(s, step.op);
    }
  }

  /** Later edits never reach an approved location: as long as its owner lives, the location
      has at every later moment the very spec it had at the first. */
  lemma LaterEditsNeverReachLocation(cfg: Config, states: seq<Store>, trace: seq<Step>, i: nat, j: nat, ref: Ref)
    requires IsRun(cfg, states, trace) && i <= j <= |trace| && Freezes(cfg, ref.name)
    requires ref.kind == BSL
    requires ref in states[i].owned && Claimed(ref, states[i].owned[ref])
    requires ref in states[j].owned && Claimed(ref, states[j].owned[ref])
    requires HasOwner(states[i].crs, ref, states[i].owned[ref]) && HasOwner(states[j].crs, ref, states[j].owned[ref])
    requires !states[i].crs[OriginOf(NABSL, states[i].owned[ref])].deleting
    requires !states[j].crs[OriginOf(NABSL, states[j].owned[ref])].deleting
    ensures states[i].owned[ref].body.Location? && states[j].owned[ref].body.Location?
    ensures states[j].owned[ref].body.fields == states[i].owned[ref].body.fields
    ensures OriginOf(NABSL, states[j].owned[ref]) == OriginOf(NABSL, states[i].owned[ref])
  {
    hide LocationFields;
    LocationSpecIsFrozen(cfg, states, trace, i, ref);
    LocationSpecIsFrozen(cfg, states, trace, j, ref);
    var source := SourceOf(states[i].owned, ref.name).value;
    RunKeepsInv(cfg, states, trace, i);
    SourceNamesOwner(cfg, states[i], ref);
    SettledUntil(cfg, states, trace, i, j, ref.name, source);
    RunKeepsInv(cfg, states, trace, j);
    HolderIsIssuedTo(cfg, states[j], OriginOf(NABSL, states[j].owned[ref]), ref.name);
    assert SourceOf(states[j].owned, ref.name) == Some(source);
    SourceNamesOwner(cfg, states[j], ref);
  }

  lemma SourceNamesOwner(cfg: Config, s: Store, ref: Ref)
    requires Inv(cfg, s) && Freezes(cfg, ref.name) && ref.kind == BSL && ref in s.owned && Claimed(ref, s.owned[ref])
    requires HasOwner(s.crs, ref, s.owned[ref]) && SourceOf(s.owned, ref.name).Some?
    ensures ref.name in s.issued && s.issued[ref.name].kind == NABSL
    ensures SourceOf(s.owned, ref.name).value.id == OriginOf(NABSL, s.owned[ref])
  {
    hide LocationFields, NamesOk, DeletionsOk, PlainOk, CrsOk;
    HolderIsIssuedTo(cfg, s, OriginOf(NABSL, s.owned[ref]), ref.name);
    var r := Ref(REQUEST, ref.name);
    assert NameIssued(s.issued, ref, s.owned[ref]) && NameIssued(s.issued, r, s.owned[r]);
    assert RequestOk(s.issued, r, s.owned[r]);
  }

  lemma {:induction false} SettledUntil(cfg: Config, states: seq<Store>, trace: seq<Step>, i: nat, j: nat,
                                        uuid: string, source: Source)
    requires |states| == |trace| + 1 && IsRun(cfg, states, trace) && i <= j <= |trace| && Freezes(cfg, uuid)
    requires Settled(states[i], uuid, source) && source.id.kind == NABSL
    ensures Settled(states[j], uuid, source)
    decreases j
  {
    hide *;
    if i < j {
      RunStep(cfg, states, trace, j - 1);
      SettledUntil(cfg, states, trace, i, j - 1, uuid, source);
      RunKeepsInv(cfg, states, trace, j - 1);
      StepKeepsSettled(cfg, states[j - 1], trace[j - 1], uuid, source);
    }
  }
}
