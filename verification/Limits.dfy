/**
 Where the guarantees end: exact conditions for the two removals that could break them, and for
 a second delete request, with the run in which there is one.
 */
module Limits {
  import opened Objects
  import opened Specs
  import opened Cluster
  import opened Protocol
  import opened Runs
  import opened NabPass
  import opened NarPass
  import opened Steps
  import opened Interference
  import opened Naming
  import opened Reach
  import Deletion
  import ObjectRuns

  /** Some protected object the controllers created is still named by this NACUUID. */
  ghost predicate Leftover(imports: bool, s: Store, kind: Kind, uuid: string) {
    exists ref :: IsLeftover(imports, s, kind, uuid, ref)
  }

  predicate IsLeftover(imports: bool, s: Store, kind: Kind, uuid: string, ref: Ref) {
    && ref in s.owned && Guarded(imports, ref.kind) && OwnerKind(ref.kind) == kind
    && ref.name == uuid && Claimed(ref, s.owned[ref])
  }

  /** Taking the finalizer off an object marked for deletion orphans something exactly when a
      protected object under its NACUUID is left.  The delete path removes the finalizer of a
      storage location even when the list call before it failed, so there this is a real limit. */
  lemma FinalizerRemovalExact(cfg: Config, s: Store, id: Id)
    requires Inv(cfg, s) && !cfg.staleReads && id in s.crs && s.crs[id].deleting
    ensures OwnersOk(cfg.reimports, DoWriteFinalizer(s, id, false).crs, DoWriteFinalizer(s, id, false).owned)
            <==> !Leftover(cfg.reimports, s, id.kind, s.crs[id].status.uuid)
  {
    hide NamesOk, RequestsOk, PlainOk, DeletionsOk, FrozenOk, VersionsOk, SyncLabelsOk, ShapeOk;
    var t := DoWriteFinalizer(s, id, false);
    var uuid := s.crs[id].status.uuid;
    assert CrOk(s.rv, s.issued, id, s.crs[id]);
    assert t.crs == s.crs - {id} && t.owned == s.owned;
    if Leftover(cfg.reimports, s, id.kind, uuid) {
      var ref :| IsLeftover(cfg.reimports, s, id.kind, uuid, ref);
      OwnerIsUnique(cfg, s, ref, id);
      assert !HasOwner(t.crs, ref, t.owned[ref]);
    } else {
      forall ref | ref in t.owned && Guarded(cfg.reimports, ref.kind) && Claimed(ref, t.owned[ref])
        ensures HasOwner(t.crs, ref, t.owned[ref])
      {
        assert !IsLeftover(cfg.reimports, s, id.kind, uuid, ref);
        assert HasOwner(s.crs, ref, s.owned[ref]);
      }
    }
  }

  /** The owner of a protected object is the one object that carries its NACUUID. */
  lemma OwnerIsUnique(cfg: Config, s: Store, ref: Ref, id: Id)
    requires Inv(cfg, s) && !cfg.staleReads && ref in s.owned && Guarded(cfg.reimports, ref.kind) && Claimed(ref, s.owned[ref])
    requires id in s.crs && s.crs[id].status.uuid == ref.name
    ensures HasOwner(s.crs, ref, s.owned[ref]) && OriginOf(OwnerKind(ref.kind), s.owned[ref]) == id
  {
    hide NamesOk, RequestsOk, PlainOk, DeletionsOk, FrozenOk, VersionsOk, SyncLabelsOk, IssuedNames, BackupsOk, CrsOk;
    assert HasOwner(s.crs, ref, s.owned[ref]);
    HolderIsIssuedTo(cfg, s, OriginOf(OwnerKind(ref.kind), s.owned[ref]), ref.name);
    CarrierIsIssuedTo(cfg, s, id);
  }

  /** A location of this NACUUID whose owner is not being deleted. */
  ghost predicate LiveLocation(s: Store, uuid: string) {
    var ref := Ref(BSL, uuid);
    && ref in s.owned && Claimed(ref, s.owned[ref]) && HasOwner(s.crs, ref, s.owned[ref])
    && !s.crs[OriginOf(NABSL, s.owned[ref])].deleting
  }

  /** The location of this NACUUID is there without the frozen spec its living owner needs. */
  ghost predicate Unfrozen(cfg: Config, s: Store, uuid: string) {
    var ref := Ref(BSL, uuid);
    ref in s.owned && Claimed(ref, s.owned[ref]) && !LocationFrozen(cfg, s.crs, s.owned, ref, s.owned[ref])
  }

  /** Deleting a request unfreezes a location at once exactly when it is the request of a location
      whose owner is not being deleted. */
  lemma RequestRemovalExact(cfg: Config, s: Store, uuid: string)
    requires Inv(cfg, s) && !cfg.staleReads && FrozenOk(cfg, s.crs, s.owned) && uuid !in cfg.raced
    requires Ref(REQUEST, uuid) in s.owned && uuid in s.issued
    ensures FrozenOk(cfg, s.crs, DoRemove(s, Ref(REQUEST, uuid)).owned) <==> !LiveLocation(s, uuid)
  {
    hide NamesOk, OwnersOk, DeletionsOk, VersionsOk, SyncLabelsOk, OwnUuids, CrsOk, LocationFields;
    var request := Ref(REQUEST, uuid);
    var t := DoRemove(s, request);
    assert NameIssued(s.issued, request, s.owned[request]) && PlainObject(request, s.owned[request]);
    assert t.owned == s.owned - {request};
    if LiveLocation(s, uuid) {
      var ref := Ref(BSL, uuid);
      assert SourceOf(t.owned, uuid).None?;
      assert !LocationFrozen(cfg, t.crs, t.owned, ref, t.owned[ref]);
    } else {
      forall ref | ref in t.owned && ref.kind == BSL && Claimed(ref, t.owned[ref]) && ref.name !in cfg.raced
        ensures LocationFrozen(cfg, t.crs, t.owned, ref, t.owned[ref])
      {
        assert LocationFrozen(cfg, s.crs, s.owned, ref, s.owned[ref]);
        if ref.name != uuid {
          assert SourceOf(t.owned, ref.name) == SourceOf(s.owned, ref.name);
        }
      }
    }
  }

  /** What there may be once the request is gone: the store as it is then, or with the location
      that a worker was permitted to write, and is about to, when the request went. */
  ghost predicate AfterRemoval(cfg: Config, s: Store, uuid: string, t: Store) {
    var gone := DoRemove(s, Ref(REQUEST, uuid));
    || t == gone
    || exists id, o :: WorkerMayPut(cfg, s, id, Ref(BSL, uuid), o) && t == DoPut(gone, Ref(BSL, uuid), o)
  }

  /** The guard on the collector is exact: a request may go without unfreezing a location, now or
      by the write already under way, if and only if it is not needed, that is, if it has no
      source, or the owner it names is gone, another one, without finalizer or being deleted. */
  lemma CollectorGuardExact(cfg: Config, s: Store, uuid: string)
    requires Inv(cfg, s) && Freezes(cfg, uuid) && Ref(REQUEST, uuid) in s.owned && uuid in s.issued
    ensures (forall t | AfterRemoval(cfg, s, uuid, t) :: FrozenOk(cfg, t.crs, t.owned)) <==> !Needed(s, uuid)
  {
    hide Inv, FrozenOk, WorkerMayPut, Needed, DoPut, DoRemove;
    if Needed(s, uuid) {
      var t := RemovalUnfreezes(cfg, s, uuid);
    } else {
      forall t | AfterRemoval(cfg, s, uuid, t) ensures FrozenOk(cfg, t.crs, t.owned) {
        NotNeededMayGo(cfg, s, uuid);
        RequestGoes(cfg, s, uuid);
        if t != DoRemove(s, Ref(REQUEST, uuid)) {
          var id, o :| WorkerMayPut(cfg, s, id, Ref(BSL, uuid), o) && t == DoPut(DoRemove(s, Ref(REQUEST, uuid)), Ref(BSL, uuid), o);
          PutUnderWayIsOfDying(cfg, s, uuid, id, o);
        }
      }
    }
  }

  /** Request, source, owner and location of a NACUUID belong together. */
  lemma OwnerNamedBySource(cfg: Config, s: Store, uuid: string, id: Id)
    requires Inv(cfg, s) && !cfg.staleReads && uuid in s.issued && Holds(s.crs, id, uuid)
    ensures SourceOf(s.owned, uuid).Some? ==> SourceOf(s.owned, uuid).value.id == id
    ensures Needed(s, uuid) <==> SourceOf(s.owned, uuid).Some? && Alive(s.crs, id)
  {
    hide NamesOk, OwnersOk, DeletionsOk, VersionsOk, SyncLabelsOk, OwnUuids, CrsOk, BackupsOk, FrozenOk, PlainOk;
    var ref := Ref(REQUEST, uuid);
    HolderIsIssuedTo(cfg, s, id, uuid);
    if SourceOf(s.owned, uuid).Some? {
      assert NameIssued(s.issued, ref, s.owned[ref]);
      assert RequestOk(s.issued, ref, s.owned[ref]);
    }
  }

  lemma NotNeededMayGo(cfg: Config, s: Store, uuid: string)
    requires Inv(cfg, s) && Freezes(cfg, uuid) && Ref(REQUEST, uuid) in s.owned && uuid in s.issued && !Needed(s, uuid)
    ensures FrozenOk(cfg, s.crs, DoRemove(s, Ref(REQUEST, uuid)).owned)
  {
    hide NamesOk, OwnersOk, DeletionsOk, VersionsOk, SyncLabelsOk, OwnUuids, CrsOk, LocationFields, RequestsOk, Needed, PlainOk,
         BackupsOk, IssuedNames;
    RequestRemovalExact(cfg, s, uuid);
    if LiveLocation(s, uuid) {
      var ref := Ref(BSL, uuid);
      assert LocationFrozen(cfg, s.crs, s.owned, ref, s.owned[ref]);
      OwnerNamedBySource(cfg, s, uuid, OriginOf(NABSL, s.owned[ref]));
    }
  }

  lemma RequestGoes(cfg: Config, s: Store, uuid: string)
    requires Inv(cfg, s) && !cfg.staleReads && Ref(REQUEST, uuid) in s.owned && uuid in s.issued
    ensures var t := DoRemove(s, Ref(REQUEST, uuid)); t.crs == s.crs && t.owned == s.owned - {Ref(REQUEST, uuid)}
  {
    hide NamesOk, OwnersOk, DeletionsOk, VersionsOk, SyncLabelsOk, OwnUuids, CrsOk, FrozenOk, RequestsOk, BackupsOk;
    var request := Ref(REQUEST, uuid);
    assert NameIssued(s.issued, request, s.owned[request]) && PlainObject(request, s.owned[request]);
  }

  /** A write under way when an unneeded request goes is for an owner that is being deleted. */
  lemma PutUnderWayIsOfDying(cfg: Config, s: Store, uuid: string, id: Id, o: Owned)
    requires Inv(cfg, s) && Freezes(cfg, uuid) && Ref(REQUEST, uuid) in s.owned && uuid in s.issued && !Needed(s, uuid)
    requires WorkerMayPut(cfg, s, id, Ref(BSL, uuid), o)
    ensures var t := DoPut(DoRemove(s, Ref(REQUEST, uuid)), Ref(BSL, uuid), o); FrozenOk(cfg, t.crs, t.owned)
  {
    hide Inv, FrozenOk, WorkerMayPut, DoRemove, Needed, LocationFields, LocationFrozen;
    var gone := DoRemove(s, Ref(REQUEST, uuid));
    var t := DoPut(gone, Ref(BSL, uuid), o);
    RequestGoes(cfg, s, uuid);
    NotNeededMayGo(cfg, s, uuid);
    PutOfDying(cfg, s, uuid, id, o);
    DyingIsFrozen(cfg, s.crs, t.owned, id, uuid);
    FrozenSurvives(cfg, s.crs, gone.owned, t.owned, Ref(BSL, uuid));
  }

  lemma DyingIsFrozen(cfg: Config, crs: Crs, owned: Objs, id: Id, uuid: string)
    requires Ref(BSL, uuid) in owned && owned[Ref(BSL, uuid)].body.Location? && Holds(crs, id, uuid) && !Alive(crs, id)
    requires NamedAfter(id, owned[Ref(BSL, uuid)])
    ensures LocationFrozen(cfg, crs, owned, Ref(BSL, uuid), owned[Ref(BSL, uuid)])
  {
  }

  predicate NamedAfter(id: Id, o: Owned) {
    OriginNamespace(NABSL) in o.annotations && OriginName(NABSL) in o.annotations && OriginOf(NABSL, o) == id
  }

  lemma PutOfDying(cfg: Config, s: Store, uuid: string, id: Id, o: Owned)
    requires Inv(cfg, s) && Freezes(cfg, uuid) && Ref(REQUEST, uuid) in s.owned && uuid in s.issued && !Needed(s, uuid)
    requires WorkerMayPut(cfg, s, id, Ref(BSL, uuid), o)
    ensures o.body.Location? && Holds(s.crs, id, uuid) && !Alive(s.crs, id) && NamedAfter(id, o)
  {
    hide NamesOk, DeletionsOk, VersionsOk, SyncLabelsOk, OwnUuids, CrsOk, LocationFields, RequestsOk, Needed, BackupsOk, OwnersOk;
    var ref := Ref(BSL, uuid);
    OwnerNamedBySource(cfg, s, uuid, id);
    HolderIsIssuedTo(cfg, s, id, uuid);
    if ref in s.owned {
      assert NameIssued(s.issued, ref, s.owned[ref]);
      assert LocationFrozen(cfg, s.crs, s.owned, ref, s.owned[ref]);
      HolderIsIssuedTo(cfg, s, OriginOf(NABSL, s.owned[ref]), uuid);
    }
  }

  lemma RemovalUnfreezes(cfg: Config, s: Store, uuid: string) returns (t: Store)
    requires Inv(cfg, s) && Freezes(cfg, uuid) && Ref(REQUEST, uuid) in s.owned && uuid in s.issued && Needed(s, uuid)
    ensures AfterRemoval(cfg, s, uuid, t) && !FrozenOk(cfg, t.crs, t.owned)
  {
    hide NamesOk, DeletionsOk, VersionsOk, SyncLabelsOk, OwnUuids, CrsOk, LocationFields, DoRemove, BackupsOk;
    var ref := Ref(BSL, uuid);
    var gone := DoRemove(s, Ref(REQUEST, uuid));
    var source := SourceOf(s.owned, uuid).value;
    RequestGoes(cfg, s, uuid);
    HolderIsIssuedTo(cfg, s, source.id, uuid);
    assert NameIssued(s.issued, Ref(REQUEST, uuid), s.owned[Ref(REQUEST, uuid)]);
    assert RequestOk(s.issued, Ref(REQUEST, uuid), s.owned[Ref(REQUEST, uuid)]);
    if ref in s.owned {
      t := gone;
      assert NameIssued(s.issued, ref, s.owned[ref]);
      assert LocationFrozen(cfg, s.crs, s.owned, ref, s.owned[ref]);
      HolderIsIssuedTo(cfg, s, OriginOf(NABSL, s.owned[ref]), uuid);
    } else {
      var o := NewObject(source.id, uuid, Location(LocationFields(cfg.enforcedLocation, source.fields, source.id.ns, uuid), false, 0));
      t := DoPut(gone, ref, o);
      LocationMayBePut(cfg, s, source.id, uuid, o);
    }
    assert SourceOf(t.owned, uuid).None?;
    assert !LocationFrozen(cfg, t.crs, t.owned, ref, t.owned[ref]);
  }

  lemma LocationMayBePut(cfg: Config, s: Store, id: Id, uuid: string, o: Owned)
    requires Holds(s.crs, id, uuid) && id.kind == NABSL && Ref(BSL, uuid) !in s.owned && SourceOf(s.owned, uuid).Some?
    requires o == NewObject(id, uuid, Location(LocationFields(cfg.enforcedLocation, SourceOf(s.owned, uuid).value.fields, id.ns, uuid),
                                               false, 0))
    ensures WorkerMayPut(cfg, s, id, Ref(BSL, uuid), o)
  {
    hide LocationFields;
  }

  // ---- A second delete request ----

  predicate NewRequest(s: Store, t: Store, ref: Ref) {
    ref.kind == DELETION && ref !in s.owned && ref in t.owned
  }

  /** What a pass does to the delete requests: one more, as asked for, or none that was not there. */
  ghost predicate Asks(s: Store, t: Store, id: Id, token: string)
    requires id in s.crs
  {
    var uuid := s.crs[id].status.uuid;
    var ref := DeleteRequestRef(uuid, token);
    && ref !in s.owned && ref in t.owned && t.owned[ref] == DeleteRequest(id, uuid, uuid).(rv := t.owned[ref].rv)
    && (forall r: Ref | r != ref :: (r in t.owned <==> r in s.owned) && (r in s.owned ==> t.owned[r] == s.owned[r]))
    && id in t.crs && t.crs[id].spec == s.crs[id].spec && t.crs[id].status.uuid == uuid
    && t.crs[id].deleting && t.crs[id].finalizer
  }

  ghost predicate AsksNothing(s: Store, t: Store) {
    forall ref | ref in t.owned && ref.kind == DELETION :: ref in s.owned
  }

  lemma AskStepAsks(s: Store, id: Id, token: string)
    requires Deletion.Clean(s, id) && Deletion.Permanent(s, id) && s.crs[id].deleting
    requires DeleteRequestRef(s.crs[id].status.uuid, token) !in s.owned
    ensures var t := AskStep(s, id, token).store;
            if Deletion.MustAsk(s, id) then Asks(s, t, id, token) else AsksNothing(s, t)
  {
    hide Found, DoWriteStatus, DoWriteFinalizer;
    var uuid, ref := s.crs[id].status.uuid, Deletion.VeleroRef(s, id);
    OnlyMember(ref);
    if |DeleteRequests(s, uuid)| == 1 {
      Deletion.OneRequest(s, uuid);
      StatusWritten(s, id, WithOutcome(s.crs[id].status, s.owned[Only(DeleteRequests(s, uuid))].body));
    }
    FinalizerLeavesObjects(s, id);
  }

  lemma FinalizerLeavesObjects(s: Store, id: Id)
    ensures DoWriteFinalizer(s, id, false).owned == s.owned
  {
  }

  lemma StandardPassAsks(s: Store, id: Id, token: string, t: Store)
    requires Deletion.Clean(s, id) && Deletion.Permanent(s, id) && Deletion.PassEnds(s, id, token, t)
    requires DeleteRequestRef(s.crs[id].status.uuid, token) !in s.owned
    ensures if s.crs[id].deleting && Deletion.MustAsk(s, id) then Asks(s, t, id, token) else AsksNothing(s, t)
  {
    hide Found, DeleteRequests, DoWriteStatus, AskStep, DependentsDeleted, Deletion.StatusMarked;
    var st := Marked(s.crs[id].status, AcceptedForDeletion);
    StatusWritten(s, id, st);
    Deletion.MarkingMarks(s, id, AcceptedForDeletion);
    if s.crs[id].deleting {
      var marked := MarkStep(s, id);
      var mid :| DependentsDeleted(marked.store, mid, id, {}) && id in mid.crs && t == AskStep(mid, id, token).store;
      ObjectRuns.MarkedParentStays(marked.store, mid, id);
      assert Deletion.MarkedNow(s, id, mid) by { Deletion.SameObjectSameMark(marked.store, mid, id); }
      Deletion.MarkedNowIsClean(s, id, mid);
      AskStepAsks(mid, id, token);
    }
  }

  lemma RemovalAsksNothing(s: Store, ref: Ref)
    ensures DoRemove(s, ref).owned.Keys <= s.owned.Keys
  {
  }

  lemma LettingGoAsksNothing(s: Store, id: Id, kind: OwnedKind)
    requires id in s.crs
    ensures LetGoStep(s, id, kind).store.owned.Keys <= s.owned.Keys
  {
    hide Found, DoRemove, DoWriteFinalizer;
    FinalizerLeavesObjects(s, id);
    forall ref ensures DoRemove(s, ref).owned.Keys <= s.owned.Keys { RemovalAsksNothing(s, ref); }
  }

  lemma DirectPassesDoNotAsk(s: Store, id: Id)
    requires id in s.crs
    ensures AsksNothing(s, DirectPass(s, id).store) && AsksNothing(s, RestoreDeletePass(s, id).store)
  {
    hide DoWriteStatus, DoRemove, DeleteRequests, LetGoStep;
    StatusWritten(s, id, Marked(s.crs[id].status, DirectDeletion));
    StatusWritten(s, id, Marked(s.crs[id].status, AcceptedForDeletion));
    var s1 := DoWriteStatus(s, id, Marked(s.crs[id].status, DirectDeletion));
    forall ref ensures DoRemove(s1, ref).owned.Keys <= s1.owned.Keys { RemovalAsksNothing(s1, ref); }
    var s2 := DropRequestStep(s1, id).store;
    assert s2.owned.Keys <= s1.owned.Keys;
    LettingGoAsksNothing(s2, id, BACKUP);
    var s3 := DoWriteStatus(s, id, Marked(s.crs[id].status, AcceptedForDeletion));
    LettingGoAsksNothing(s3, id, RESTORE);
    assert DirectPass(s, id).store.owned.Keys <= s.owned.Keys && RestoreDeletePass(s, id).store.owned.Keys <= s.owned.Keys;
  }

  /** A pass writes a delete request if and only if the object is marked for deletion with its
      data, its backup is still there and has no delete request; then it writes that one only. */
  lemma RequestWrittenIff(cfg: Config, s: Store, id: Id, token: string, t: Store)
    requires Inv(cfg, s) && !cfg.staleReads && Deletion.Requested(s, id) && id.kind != NABSL
    requires Deletion.PassEnds(s, id, token, t) && DeleteRequestRef(s.crs[id].status.uuid, token) !in s.owned
    ensures (exists ref :: NewRequest(s, t, ref)) <==>
              && id.kind == NAB && s.crs[id].deleting && s.crs[id].spec.deleteBackup
              && Ref(BACKUP, s.crs[id].status.uuid) in s.owned && DeleteRequests(s, s.crs[id].status.uuid) == {}
    ensures (exists ref :: NewRequest(s, t, ref)) ==> Asks(s, t, id, token)
    ensures forall ref | NewRequest(s, t, ref) ::
              var o := t.owned[ref];
              && o.body.Deletion? && HasValue(o.labels, BackupNameLabel, o.body.backup)
              && Found(s, BACKUP, s.crs[id].status.uuid) == {Ref(BACKUP, o.body.backup)}
              && LabelledWith(NAB, o, s.crs[id].status.uuid) && Selected(o)
              && HasValue(o.annotations, OriginNamespace(NAB), id.ns) && HasValue(o.annotations, OriginName(NAB), id.name)
  {
    hide Inv, Deletion.Clean, DeleteRequests, DirectPass, RestoreDeletePass, DependentsDeleted, MarkStep, AskStep;
    DirectPassesDoNotAsk(s, id);
    if Deletion.Permanent(s, id) {
      if s.crs[id].deleting {
        DeletingHolds(cfg, s, id);
        Deletion.ReachableIsClean(cfg, s, id);
        StandardPassAsks(s, id, token, t);
        if Deletion.MustAsk(s, id) {
          assert NewRequest(s, t, DeleteRequestRef(s.crs[id].status.uuid, token));
          WrittenNamesBackup(s, t, id, token);
        }
      } else {
        MarkStepDoesNotAsk(s, id);
      }
    }
  }

  lemma WrittenNamesBackup(s: Store, t: Store, id: Id, token: string)
    requires Deletion.Clean(s, id) && Deletion.MustAsk(s, id) && s.crs[id].deleting && Asks(s, t, id, token)
    ensures forall ref | NewRequest(s, t, ref) ::
              var o := t.owned[ref];
              && o.body.Deletion? && HasValue(o.labels, BackupNameLabel, o.body.backup)
              && Found(s, BACKUP, s.crs[id].status.uuid) == {Ref(BACKUP, o.body.backup)}
              && LabelledWith(NAB, o, s.crs[id].status.uuid) && Selected(o)
              && HasValue(o.annotations, OriginNamespace(NAB), id.ns) && HasValue(o.annotations, OriginName(NAB), id.name)
  {
    hide Found, DeleteRequests;
  }

  lemma DeletingHolds(cfg: Config, s: Store, id: Id)
    requires Inv(cfg, s) && id in s.crs && s.crs[id].deleting
    ensures s.crs[id].finalizer && s.crs[id].status.uuid != "" && s.crs[id].status.uuid in s.issued
  {
    assert CrOk(s.rv, s.issued, id, s.crs[id]);
  }

  lemma MarkStepDoesNotAsk(s: Store, id: Id)
    requires id in s.crs
    ensures AsksNothing(s, MarkStep(s, id).store) && (MarkStep(s, id).outcome == Continue ==> s.crs[id].deleting)
  {
  }

  /** Over a whole run: the pass that follows writes a further delete request for a backup,
      beyond those written since its NACUUID was given out, if and only if every earlier one was
      taken away, the backup is still there, and the object is marked for deletion with its data. */
  lemma FurtherRequestIff(cfg: Config, states: seq<Store>, trace: seq<Step>, i: nat, id: Id, token: string, t: Store)
    requires IsRun(cfg, states, trace) && i <= |trace| && !cfg.staleReads
    requires var s := states[|trace|];
             && Deletion.Requested(s, id) && id.kind == NAB && Deletion.PassEnds(s, id, token, t)
             && DeleteRequestRef(s.crs[id].status.uuid, token) !in s.owned
             && s.crs[id].status.uuid in states[i].issued && !Requested(states[i], s.crs[id].status.uuid)
    ensures var s, n := states[|trace|], |trace|;
            var uuid := s.crs[id].status.uuid;
            var before := Written(states, trace, i, n, uuid);
            (exists ref :: NewRequest(s, t, ref)) && before >= 1 <==>
              && s.crs[id].deleting && s.crs[id].spec.deleteBackup && Ref(BACKUP, uuid) in s.owned
              && Taken(states, trace, i, n, uuid) == before >= 1
  {
    hide Inv, Deletion.PassEnds, NewRequest, Written, Taken;
    var s, n := states[|trace|], |trace|;
    var uuid := s.crs[id].status.uuid;
    RunKeepsInv(cfg, states, trace, n);
    RequestsBalance(cfg, states, trace, i, n, uuid);
    RequestWrittenIff(cfg, s, id, token, t);
    NoRequestIsEmpty(s, uuid);
  }

  lemma NoRequestIsEmpty(s: Store, uuid: string)
    ensures Requested(s, uuid) <==> DeleteRequests(s, uuid) != {}
  {
    if Requested(s, uuid) {
      var ref :| ForBackup(s.owned, ref, uuid);
      assert ref in DeleteRequests(s, uuid);
    }
    if DeleteRequests(s, uuid) != {} {
      var ref :| ref in DeleteRequests(s, uuid);
      assert ForBackup(s.owned, ref, uuid);
    }
  }

  /** A run with two requests: asked for, taken back by the user, and asked for again. */
  datatype Toggle = Toggle(asked: Store, backed: Store, dropped: Store, again: Store, askedAgain: Store)

  ghost predicate IsToggle(cfg: Config, s: Store, id: Id, token1: string, token2: string, r: Toggle) {
    && id in s.crs && id in r.asked.crs && id in r.backed.crs && id in r.dropped.crs && id in r.again.crs
    && Deletion.PassEnds(s, id, token1, r.asked) && Reaches(cfg, s, r.asked)
    && r.backed == DoEdit(r.asked, id, s.crs[id].spec.(deleteBackup := false)) && Reaches(cfg, r.asked, r.backed)
    && Deletion.PassEnds(r.backed, id, token2, r.dropped) && Reaches(cfg, r.backed, r.dropped)
    && r.again == DoEdit(r.dropped, id, s.crs[id].spec) && Reaches(cfg, r.dropped, r.again)
    && Deletion.PassEnds(r.again, id, token2, r.askedAgain) && Reaches(cfg, r.again, r.askedAgain)
  }

  /** A backup being deleted with its data, that Velero holds and nobody has asked it to delete yet. */
  ghost predicate CanToggle(cfg: Config, s: Store, id: Id, token1: string, token2: string) {
    && Inv(cfg, s) && !cfg.staleReads && id in s.crs && id.kind == NAB && s.crs[id].deleting && s.crs[id].spec.deleteBackup
    && Ref(BACKUP, s.crs[id].status.uuid) in s.owned && s.owned[Ref(BACKUP, s.crs[id].status.uuid)].held
    && DeleteRequests(s, s.crs[id].status.uuid) == {}
    && token1 != token2 && |token1| == |token2| == UuidLength && TokenFree(s, token1) && TokenFree(s, token2)
  }

  /** After the pass that asks there is this one request, and the backup is as it was. */
  lemma AskedOnce(s: Store, t: Store, id: Id, token: string)
    requires id in s.crs && Asks(s, t, id, token) && DeleteRequests(s, s.crs[id].status.uuid) == {}
    ensures var uuid := s.crs[id].status.uuid;
            var backup, request := Ref(BACKUP, uuid), DeleteRequestRef(uuid, token);
            && DeleteRequests(t, uuid) == {request} && request in t.owned && !t.owned[request].held
            && Found(t, BACKUP, uuid) == Found(s, BACKUP, uuid)
            && (backup in s.owned ==> backup in t.owned && t.owned[backup] == s.owned[backup])
            && id in t.crs && t.crs[id].spec == s.crs[id].spec && t.crs[id].status.uuid == uuid && t.crs[id].deleting
  {
    var uuid := s.crs[id].status.uuid;
    var request := DeleteRequestRef(uuid, token);
    forall r ensures r in DeleteRequests(t, uuid) <==> r == request {
      assert r !in DeleteRequests(s, uuid);
    }
  }

  lemma PassIssuesNothing(cfg: Config, s: Store, id: Id, token: string, t: Store)
    requires Inv(cfg, s) && !cfg.staleReads && id in s.crs && Deletion.Permanent(s, id) && s.crs[id].deleting
    requires Deletion.PassEnds(s, id, token, t)
    ensures t.issued == s.issued
  {
    hide Inv, DoWriteStatus, DependentsDeleted, Found, DeleteRequests, DoWriteFinalizer;
    DeletingHolds(cfg, s, id);
    var st := Marked(s.crs[id].status, AcceptedForDeletion);
    NothingIssued(cfg, s, id, st);
    StatusWritten(s, id, st);
    var marked := MarkStep(s, id);
    var mid :| DependentsDeleted(marked.store, mid, id, {}) && id in mid.crs && t == AskStep(mid, id, token).store;
    ObjectRuns.MarkedParentStays(marked.store, mid, id);
    AskIssuesNothing(mid, id, token);
  }

  lemma AskIssuesNothing(s: Store, id: Id, token: string)
    requires id in s.crs && s.crs[id].status.uuid in s.issued
    ensures AskStep(s, id, token).store.issued == s.issued
  {
    hide Found, DeleteRequests;
  }

  lemma AskedKeepsToken(s: Store, t: Store, id: Id, token1: string, token2: string)
    requires id in s.crs && Asks(s, t, id, token1) && t.issued == s.issued && TokenFree(s, token2)
    requires s.crs[id].status.uuid in s.issued && token1 != token2 && |token1| == |token2|
    ensures TokenFree(t, token2)
  {
    var uuid := s.crs[id].status.uuid;
    var name := uuid + "-" + token1;
    assert name[|name| - |token1|..] == token1;
  }

  lemma FirstAsked(cfg: Config, s: Store, id: Id, token1: string, token2: string) returns (t: Store)
    requires CanToggle(cfg, s, id, token1, token2)
    ensures Deletion.PassEnds(s, id, token1, t) && Reaches(cfg, s, t) && Inv(cfg, t) && TokenFree(t, token2)
    ensures Asks(s, t, id, token1)
  {
    hide Inv, Reaches, Deletion.PassEnds, TokenFree, Asks, NewRequest;
    ObjectRuns.DeletingPassIsRun(cfg, s, id, token1);
    t :| Deletion.PassEnds(s, id, token1, t) && Reaches(cfg, s, t);
    ReachesKeepsInv(cfg, s, t);
    ObjectRuns.FreshRequest(s, s.crs[id].status.uuid, token1);
    RequestWrittenIff(cfg, s, id, token1, t);
    PassIssuesNothing(cfg, s, id, token1, t);
    DeletingHolds(cfg, s, id);
    AskedKeepsToken(s, t, id, token1, token2);
  }

  lemma ToggledBack(cfg: Config, s: Store, id: Id, request: Ref, token: string)
    requires Inv(cfg, s) && !cfg.staleReads && id in s.crs && id.kind == NAB && s.crs[id].deleting && s.crs[id].spec.deleteBackup
    requires var uuid := s.crs[id].status.uuid;
             && Ref(BACKUP, uuid) in s.owned && s.owned[Ref(BACKUP, uuid)].held
             && DeleteRequests(s, uuid) == {request} && request in s.owned && !s.owned[request].held
    requires TokenFree(s, token)
    ensures var spec, uuid := s.crs[id].spec, s.crs[id].status.uuid;
            var backed := DoEdit(s, id, spec.(deleteBackup := false));
            && id in backed.crs && Reaches(cfg, s, backed)
            && var dropped := DirectPass(backed, id).store;
               && id in dropped.crs && Deletion.PassEnds(backed, id, token, dropped) && Reaches(cfg, backed, dropped)
               && DeleteRequests(dropped, uuid) == {}
               && var again := DoEdit(dropped, id, spec);
                  && Reaches(cfg, dropped, again) && Reaches(cfg, s, again)
                  && id in again.crs && again.crs[id].spec == spec && again.crs[id].status.uuid == uuid
                  && again.crs[id].deleting && Ref(BACKUP, uuid) in again.owned
                  && DeleteRequests(again, uuid) == {} && TokenFree(again, token)
  {
    hide Inv, Reaches, DoEdit, DirectPass, DeleteRequests, TokenFree, Found;
    var spec, uuid := s.crs[id].spec, s.crs[id].status.uuid;
    DeletingHolds(cfg, s, id);
    ObjectRuns.VeleroObject(cfg, s, id);
    var edited := spec.(deleteBackup := false);
    EditKeepsObjects(s, id, edited, uuid);
    StepReaches(cfg, s, Step(User, Edit(id, edited)));
    var backed := DoEdit(s, id, edited);
    ReachesKeepsInv(cfg, s, backed);
    TakenBack(backed, id, request);
    ObjectRuns.DirectPassReaches(cfg, backed, id);
    var dropped := DirectPass(backed, id).store;
    EditKeepsObjects(dropped, id, spec, uuid);
    StepReaches(cfg, dropped, Step(User, Edit(id, spec)));
    ReachesOn(cfg, s, backed, dropped);
    ReachesOn(cfg, s, dropped, DoEdit(dropped, id, spec));
    FewerNamesKeepToken(s, DoEdit(dropped, id, spec), token);
  }

  lemma FewerNamesKeepToken(s: Store, t: Store, token: string)
    requires TokenFree(s, token) && t.issued == s.issued
    requires forall ref: Ref | ref in t.owned :: ref in s.owned && t.owned[ref].labels == s.owned[ref].labels
    ensures TokenFree(t, token)
  {
  }

  lemma EditKeepsObjects(s: Store, id: Id, spec: Spec, uuid: string)
    requires id in s.crs
    ensures var t := DoEdit(s, id, spec);
            && t.owned == s.owned && t.issued == s.issued && id in t.crs && t.crs[id] == s.crs[id].(spec := spec, rv := t.crs[id].rv)
            && Found(t, BACKUP, uuid) == Found(s, BACKUP, uuid)
            && DeleteRequests(t, uuid) == DeleteRequests(s, uuid)
  {
  }

  lemma TakenBack(s: Store, id: Id, request: Ref)
    requires id in s.crs && s.crs[id].status.uuid != "" && s.crs[id].status.uuid in s.issued
    requires var uuid := s.crs[id].status.uuid;
             && Found(s, BACKUP, uuid) == {Ref(BACKUP, uuid)} && Ref(BACKUP, uuid) in s.owned
             && s.owned[Ref(BACKUP, uuid)].held
             && DeleteRequests(s, uuid) == {request} && request in s.owned && !s.owned[request].held
    ensures var uuid := s.crs[id].status.uuid;
            var t := DirectPass(s, id).store;
            && id in t.crs && t.crs[id] == s.crs[id].(status := t.crs[id].status, rv := t.crs[id].rv)
            && t.crs[id].status.uuid == uuid
            && DeleteRequests(t, uuid) == {} && Found(t, BACKUP, uuid) == {Ref(BACKUP, uuid)}
            && Ref(BACKUP, uuid) in t.owned
            && t.issued == s.issued
            && (forall ref: Ref | ref in t.owned :: ref in s.owned && t.owned[ref].labels == s.owned[ref].labels)
  {
    var uuid, backup := s.crs[id].status.uuid, Ref(BACKUP, s.crs[id].status.uuid);
    OnlyMember(backup);
    OnlyMember(request);
    var s1 := DoWriteStatus(s, id, Marked(s.crs[id].status, DirectDeletion));
    StatusWritten(s, id, Marked(s.crs[id].status, DirectDeletion));
    assert DeleteRequests(s1, uuid) == {request};
    var s2 := DropRequestStep(s1, id).store;
    assert s2.owned == s.owned - {request} && s2.crs == s1.crs;
    assert Found(s2, BACKUP, uuid) == {backup} by {
      assert backup in Found(s, BACKUP, uuid);
      assert request in DeleteRequests(s, uuid);
    }
    assert DirectPass(s, id).store == DoRemove(s2, backup);
    HeldStays(s2, backup, uuid);
  }

  lemma HeldStays(s: Store, backup: Ref, uuid: string)
    requires backup in s.owned && s.owned[backup].held && Found(s, BACKUP, uuid) == {backup} && backup.kind == BACKUP
    ensures var t := DoRemove(s, backup);
            && t.crs == s.crs && backup in t.owned && Found(t, BACKUP, uuid) == {backup}
            && DeleteRequests(t, uuid) == DeleteRequests(s, uuid) && t.owned.Keys == s.owned.Keys && t.issued == s.issued
            && (forall ref | ref in s.owned :: t.owned[ref].labels == s.owned[ref].labels)
  {
    var t := DoRemove(s, backup);
    assert backup in Found(s, BACKUP, uuid);
  }

  /** "At most one delete request over a whole run" is not what the code does: from every
      reachable state in which a Velero finalizer holds the backup, taking deleteBackup back and
      setting it again makes three passes write a request, delete it, and write a second one. */
  lemma SecondDeleteRequest(cfg: Config, s: Store, id: Id, token1: string, token2: string)
    requires Reachable(cfg, s) && CanToggle(cfg, s, id, token1, token2)
    ensures exists r: Toggle :: IsToggle(cfg, s, id, token1, token2, r) && Reachable(cfg, r.askedAgain) &&
              var uuid := s.crs[id].status.uuid;
              && Ref(BACKUP, uuid) in r.askedAgain.owned
              && DeleteRequests(r.asked, uuid) == {DeleteRequestRef(uuid, token1)}
              && DeleteRequests(r.dropped, uuid) == {}
              && DeleteRequests(r.askedAgain, uuid) == {DeleteRequestRef(uuid, token2)}
  {
    hide Reachable, Reaches, Deletion.PassEnds, Inv, TokenFree, DeleteRequests, DoEdit, DirectPass, Asks, DeleteRequestRef, NewRequest;
    var uuid, spec := s.crs[id].status.uuid, s.crs[id].spec;
    var asked := FirstAsked(cfg, s, id, token1, token2);
    AskedOnce(s, asked, id, token1);
    ToggledBack(cfg, asked, id, DeleteRequestRef(uuid, token1), token2);
    var backed := DoEdit(asked, id, spec.(deleteBackup := false));
    var dropped := DirectPass(backed, id).store;
    var again := DoEdit(dropped, id, spec);
    ReachesOn(cfg, s, asked, again);
    ReachesKeepsInv(cfg, s, again);
    ObjectRuns.DeletingPassIsRun(cfg, again, id, token2);
    var askedAgain :| Deletion.PassEnds(again, id, token2, askedAgain) && Reaches(cfg, again, askedAgain);
    ObjectRuns.FreshRequest(again, uuid, token2);
    RequestWrittenIff(cfg, again, id, token2, askedAgain);
    AskedOnce(again, askedAgain, id, token2);
    ReachesOn(cfg, s, again, askedAgain);
    ReachableGoesOn(cfg, s, askedAgain);
    assert IsToggle(cfg, s, id, token1, token2, Toggle(asked, backed, dropped, again, askedAgain));
  }

  /** The two requests are within reach of every backup that was made and not yet asked to be
      deleted: Velero holds it, the user sets deleteBackup, and one pass marks the object. */
  lemma ToggleIsOpen(cfg: Config, s: Store, id: Id, token1: string, token2: string)
    requires Held(cfg, s, id) && id.kind == NAB && Ref(BACKUP, s.crs[id].status.uuid) in s.owned
    requires DeleteRequests(s, s.crs[id].status.uuid) == {}
    requires token1 != token2 && |token1| == |token2| == UuidLength && TokenFree(s, token1) && TokenFree(s, token2)
    ensures exists t :: Reaches(cfg, s, t) && CanToggle(cfg, t, id, token1, token2)
  {
    hide Reaches, Inv, TokenFree, DoEdit, MarkStep, DeleteRequests, DoPut;
    var uuid, spec := s.crs[id].status.uuid, s.crs[id].spec.(deleteBackup := true);
    VeleroHolds(cfg, s, id);
    var held := DoPut(s, Ref(BACKUP, uuid), s.owned[Ref(BACKUP, uuid)].(held := true));
    EditKeepsObjects(held, id, spec, uuid);
    StepReaches(cfg, held, Step(User, Edit(id, spec)));
    var edited := DoEdit(held, id, spec);
    ReachesOn(cfg, s, held, edited);
    ReachesKeepsInv(cfg, s, edited);
    ObjectRuns.MarkStepReaches(cfg, edited, id);
    var t := MarkStep(edited, id).store;
    ReachesOn(cfg, s, edited, t);
    ReachesKeepsInv(cfg, s, t);
    MarkStepMarks(cfg, edited, id, uuid);
    FewerNamesKeepToken(s, t, token1);
    FewerNamesKeepToken(s, t, token2);
    assert CanToggle(cfg, t, id, token1, token2);
  }

  lemma VeleroHolds(cfg: Config, s: Store, id: Id)
    requires Held(cfg, s, id) && id.kind == NAB && Ref(BACKUP, s.crs[id].status.uuid) in s.owned
    ensures var ref := Ref(BACKUP, s.crs[id].status.uuid);
            var t := DoPut(s, ref, s.owned[ref].(held := true));
            && Reaches(cfg, s, t) && t.crs == s.crs && t.issued == s.issued && t.owned.Keys == s.owned.Keys
            && (forall r | r in t.owned :: t.owned[r].labels == s.owned[r].labels) && t.owned[ref].held
            && DeleteRequests(t, ref.name) == DeleteRequests(s, ref.name)
  {
    hide Reaches, CrsOk, NamesOk, OwnersOk, RequestsOk, PlainOk, DeletionsOk, FrozenOk, VersionsOk, SyncLabelsOk, OwnUuids, BackupsOk;
    var ref := Ref(BACKUP, s.crs[id].status.uuid);
    ReadyShape(cfg, s, id);
    assert NameIssued(s.issued, ref, s.owned[ref]);
    StepReaches(cfg, s, Step(Velero, Put(ref, s.owned[ref].(held := true))));
  }

  lemma MarkStepMarks(cfg: Config, s: Store, id: Id, uuid: string)
    requires Held(cfg, s, id)
    ensures var t := MarkStep(s, id).store;
            && t.owned == s.owned && t.issued == s.issued && id in t.crs && t.crs[id].deleting
            && t.crs[id].spec == s.crs[id].spec && t.crs[id].status.uuid == s.crs[id].status.uuid
            && DeleteRequests(t, uuid) == DeleteRequests(s, uuid)
  {
    hide Inv, DoWriteStatus;
    StatusWritten(s, id, Marked(s.crs[id].status, AcceptedForDeletion));
    NothingIssued(cfg, s, id, Marked(s.crs[id].status, AcceptedForDeletion));
  }
}
