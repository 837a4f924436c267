/**
 Deletion terminates: once it is requested, every undisturbed pass that is not waiting for
 Velero, and every step of Velero it waits for, brings the end nearer, until the object is
 gone with no Velero object left.
 */
module Deletion {
  import opened Objects
  import opened Cluster
  import opened Protocol
  import opened ApiClient
  import opened Sets
  import opened Steps
  import opened NabPass
  import opened NarPass

  function VeleroKind(kind: Kind): OwnedKind {
    if kind == NAB then BACKUP else RESTORE
  }

  function VeleroRef(s: Store, id: Id): Ref
    requires id in s.crs
  {
    Ref(VeleroKind(id.kind), s.crs[id].status.uuid)
  }

  /** Deletion with its data, by the field in the spec, as against deletion of the object only. */
  predicate Permanent(s: Store, id: Id)
    requires id in s.crs
  {
    id.kind == NAB && s.crs[id].spec.deleteBackup
  }

  predicate Requested(s: Store, id: Id) {
    id in s.crs && (s.crs[id].deleting || Permanent(s, id))
  }

  /** The delete requests for this backup ask for this backup. */
  ghost predicate RequestsNamed(s: Store, uuid: string) {
    forall r | r in DeleteRequests(s, uuid) :: NamesItsBackup(s.owned[r])
  }

  /** What the invariant says of one backup or restore and the Velero objects around it. */
  ghost predicate Clean(s: Store, id: Id) {
    && id in s.crs && id.kind != NABSL
    && var c, ref := s.crs[id], VeleroRef(s, id);
       && (c.deleting ==> c.finalizer) && (c.finalizer ==> c.status.uuid != "")
       && (c.status.uuid != "" ==>
             && Found(s, ref.kind, ref.name) == (if ref in s.owned then {ref} else {})
             && (!c.finalizer ==> ref !in s.owned)
             && |DeleteRequests(s, c.status.uuid)| <= 1
             && RequestsNamed(s, c.status.uuid))
  }

  lemma ReachableIsClean(cfg: Config, s: Store, id: Id)
    requires Inv(cfg, s) && !cfg.staleReads && id in s.crs && id.kind != NABSL
    requires id.kind == NAR || !cfg.reimports || s.crs[id].finalizer
    ensures Clean(s, id)
  {
    hide NamesOk, RequestsOk, PlainOk, FrozenOk, VersionsOk, SyncLabelsOk, ShapeOk, OwnersOk, IssuedNames, BackupsOk;
    var c, ref := s.crs[id], VeleroRef(s, id);
    assert CrOk(s.rv, s.issued, id, c);
    if c.status.uuid != "" {
      CarrierIsIssuedTo(cfg, s, id);
      NoneFoundNoneNamed(cfg, s, id, ref.kind, ref.name);
      AtMostOneFound(cfg, s, ref.kind, ref.name);
      if !c.finalizer {
        NotHeldNothingThere(cfg, s, id, ref);
      }
      AtMostOneRequest(s, c.status.uuid);
      RequestsAreNamed(cfg, s, c.status.uuid);
    }
  }

  lemma RequestsAreNamed(cfg: Config, s: Store, uuid: string)
    requires Inv(cfg, s) && !cfg.staleReads && uuid in s.issued
    ensures RequestsNamed(s, uuid)
  {
    hide CrsOk, OwnersOk, RequestsOk, PlainOk, FrozenOk, VersionsOk, SyncLabelsOk, OwnUuids, IssuedNames, BackupsOk;
    forall r | r in DeleteRequests(s, uuid) ensures NamesItsBackup(s.owned[r]) {
      assert ForBackup(s.owned, r, uuid);
    }
  }

  lemma NotHeldNothingThere(cfg: Config, s: Store, id: Id, ref: Ref)
    requires Inv(cfg, s) && !cfg.staleReads && id in s.crs && IssuedTo(s, id, ref.name)
    requires Guarded(cfg.reimports, ref.kind) && OwnerKind(ref.kind) == id.kind && s.crs[id].status.uuid == ref.name
    ensures !s.crs[id].finalizer ==> ref !in s.owned
  {
    hide RequestsOk, PlainOk, FrozenOk, VersionsOk, SyncLabelsOk, DeletionsOk, CrsOk;
    if ref in s.owned {
      assert NameIssued(s.issued, ref, s.owned[ref]);
      assert HasOwner(s.crs, ref, s.owned[ref]);
      var owner := OriginOf(id.kind, s.owned[ref]);
      HolderIsIssuedTo(cfg, s, owner, ref.name);
    }
  }

  lemma AtMostOneRequest(s: Store, uuid: string)
    requires DeletionsOk(s.issued, s.owned) && uuid in s.issued
    ensures |DeleteRequests(s, uuid)| <= 1
  {
    var found := DeleteRequests(s, uuid);
    if found != {} {
      var a :| a in found;
      forall b | b in found ensures b == a {
        assert ForBackup(s.owned, a, uuid) && ForBackup(s.owned, b, uuid);
      }
      assert found == {a};
    }
  }

  // ---- The measure ----

  predicate StatusMarked(s: Store, id: Id)
    requires id in s.crs
  {
    var message := if Permanent(s, id) || id.kind == NAR then AcceptedForDeletion else DirectDeletion;
    Marked(s.crs[id].status, message) == s.crs[id].status
  }

  /** A delete request has still to be written. */
  ghost predicate MustAsk(s: Store, id: Id)
    requires id in s.crs
  {
    Permanent(s, id) && VeleroRef(s, id) in s.owned && DeleteRequests(s, s.crs[id].status.uuid) == {}
  }

  ghost function VeleroWeight(s: Store, id: Id): nat
    requires id in s.crs
  {
    var ref := VeleroRef(s, id);
    if ref !in s.owned then 0 else if s.owned[ref].held && s.owned[ref].terminating then 1 else 2
  }

  /** Status marked, deletion stamp, delete request, Velero object, finalizer. */
  ghost function Measure(s: Store, id: Id): nat {
    if id !in s.crs then 0
    else
      (if StatusMarked(s, id) then 0 else 16) + (if s.crs[id].deleting then 0 else 8)
      + (if MustAsk(s, id) then 4 else 0) + VeleroWeight(s, id) + 1
  }

  /** Nothing is left to do but for Velero: to act on the delete request, or to take its own
      finalizer off the object. */
  ghost predicate Waiting(s: Store, id: Id)
    requires id in s.crs
  {
    var ref := VeleroRef(s, id);
    && StatusMarked(s, id) && s.crs[id].deleting && ref in s.owned
    && if Permanent(s, id) then !MustAsk(s, id) else s.owned[ref].held && s.owned[ref].terminating
  }

  // ---- One pass ----

  /** What an undisturbed pass over an object whose deletion is requested may end in. */
  ghost predicate PassEnds(s: Store, id: Id, token: string, t: Store)
    requires id in s.crs
  {
    if Permanent(s, id) then
      var marked := MarkStep(s, id);
      if marked.outcome == Continue then
        exists mid :: DependentsDeleted(marked.store, mid, id, {}) && id in mid.crs && t == AskStep(mid, id, token).store
      else t == marked.store
    else if id.kind == NAB then t == DirectPass(s, id).store
    else t == RestoreDeletePass(s, id).store
  }

  /** The object has come closer to its end, or is gone for good. */
  ghost predicate Nearer(s: Store, id: Id, t: Store)
    requires id in s.crs
  {
    if id in t.crs then
      && Clean(t, id) && Requested(t, id) && VeleroRef(t, id) == VeleroRef(s, id)
      && Measure(t, id) <= Measure(s, id) && (!Waiting(s, id) ==> Measure(t, id) < Measure(s, id))
    else VeleroRef(s, id).name != "" ==> VeleroRef(s, id) !in t.owned
  }

  /** Changes only the status of the object, in a way that leaves the mark as it is or sets it. */
  ghost predicate MarkedNow(s: Store, id: Id, t: Store) {
    && id in s.crs && id in t.crs && t.owned == s.owned
    && t.crs[id] == s.crs[id].(status := t.crs[id].status, rv := t.crs[id].rv)
    && t.crs[id].status.uuid == s.crs[id].status.uuid && StatusMarked(t, id)
  }

  lemma MarkedNowIsClean(s: Store, id: Id, t: Store)
    requires MarkedNow(s, id, t) && Clean(s, id)
    ensures Clean(t, id) && VeleroRef(t, id) == VeleroRef(s, id) && (Requested(s, id) ==> Requested(t, id))
    ensures MustAsk(t, id) == MustAsk(s, id) && VeleroWeight(t, id) == VeleroWeight(s, id)
    ensures Measure(t, id) <= Measure(s, id) && (!StatusMarked(s, id) ==> Measure(t, id) < Measure(s, id))
  {
    hide StatusMarked;
    SameOwned(s, t, VeleroRef(s, id).kind, s.crs[id].status.uuid);
  }

  lemma SameOwned(s: Store, t: Store, kind: OwnedKind, uuid: string)
    requires t.owned == s.owned
    ensures Found(t, kind, uuid) == Found(s, kind, uuid) && DeleteRequests(t, uuid) == DeleteRequests(s, uuid)
  {
  }

  lemma MarkingMarks(s: Store, id: Id, message: Message)
    requires id in s.crs
    requires message == if Permanent(s, id) || id.kind == NAR then AcceptedForDeletion else DirectDeletion
    ensures MarkedNow(s, id, DoWriteStatus(s, id, Marked(s.crs[id].status, message)))
  {
    StatusWritten(s, id, Marked(s.crs[id].status, message));
    MarkedTwice(s.crs[id].status, message);
  }

  lemma MarkedTwice(st: Status, message: Message)
    ensures Marked(Marked(st, message), message) == Marked(st, message)
  {
    assert Marked(Marked(st, message), message).conds == Marked(st, message).conds;
  }

  lemma RemovalIsNearer(s: Store, id: Id)
    requires Clean(s, id) && !Permanent(s, id) && s.crs[id].deleting && StatusMarked(s, id) && VeleroRef(s, id) in s.owned
    ensures var t := DoRemove(s, VeleroRef(s, id));
            Nearer(s, id, t) && Measure(t, id) <= Measure(s, id) && id in t.crs
  {
    hide StatusMarked;
    var ref := VeleroRef(s, id);
    var t := DoRemove(s, ref);
    assert t.crs == s.crs;
    assert StatusMarked(t, id) == StatusMarked(s, id) by { SameObjectSameMark(s, t, id); }
    assert Found(s, ref.kind, ref.name) == {ref};
    RemovalKeepsRest(s, ref, ref.name);
  }

  lemma SameObjectSameMark(s: Store, t: Store, id: Id)
    requires id in s.crs && id in t.crs && s.crs[id].status == t.crs[id].status && s.crs[id].spec == t.crs[id].spec
    ensures StatusMarked(t, id) == StatusMarked(s, id)
  {
  }

  lemma RemovalKeepsRest(s: Store, ref: Ref, uuid: string)
    requires ref in s.owned && ref.kind != DELETION
    requires Found(s, ref.kind, uuid) == {ref}
    ensures var t := DoRemove(s, ref);
            && DeleteRequests(t, uuid) == DeleteRequests(s, uuid)
            && Found(t, ref.kind, uuid) == (if ref in t.owned then {ref} else {})
  {
    var t := DoRemove(s, ref);
    assert LabelledWith(OwnerKind(ref.kind), s.owned[ref], uuid) by { assert ref in Found(s, ref.kind, uuid); }
    forall r ensures r in Found(t, ref.kind, uuid) <==> r == ref && ref in t.owned {
      assert r in Found(s, ref.kind, uuid) <==> r == ref;
    }
  }

  lemma LetGoIsNearer(s: Store, id: Id)
    requires Clean(s, id) && !Permanent(s, id) && s.crs[id].deleting && StatusMarked(s, id)
    ensures Nearer(s, id, LetGoStep(s, id, VeleroKind(id.kind)).store)
  {
    hide StatusMarked, Found;
    var ref := VeleroRef(s, id);
    OnlyMember(ref);
    if ref in s.owned {
      RemovalIsNearer(s, id);
    }
  }

  lemma DroppingRequestKeeps(s: Store, id: Id, r: Ref)
    requires Clean(s, id) && !Permanent(s, id) && r in DeleteRequests(s, s.crs[id].status.uuid) && s.crs[id].status.uuid != ""
    ensures var t := DoRemove(s, r);
            && id in t.crs && Clean(t, id) && VeleroRef(t, id) == VeleroRef(s, id) && t.crs == s.crs
            && Measure(t, id) == Measure(s, id) && Waiting(t, id) == Waiting(s, id) && StatusMarked(t, id) == StatusMarked(s, id)
  {
    hide StatusMarked, DoRemove, Found, DeleteRequests;
    var t, ref := DoRemove(s, r), VeleroRef(s, id);
    RequestRemovalFrame(s, r, ref.kind, ref.name);
    SameObjectSameMark(s, t, id);
    SubsetSize(DeleteRequests(t, ref.name), DeleteRequests(s, ref.name));
  }

  lemma RequestRemovalFrame(s: Store, r: Ref, kind: OwnedKind, uuid: string)
    requires r in DeleteRequests(s, uuid) && kind != DELETION
    ensures var t := DoRemove(s, r);
            && t.crs == s.crs && Found(t, kind, uuid) == Found(s, kind, uuid)
            && DeleteRequests(t, uuid) <= DeleteRequests(s, uuid) && (RequestsNamed(s, uuid) ==> RequestsNamed(t, uuid))
            && (forall x: Ref | x.kind != DELETION ::
                  (x in t.owned <==> x in s.owned) && (x in s.owned ==> t.owned[x] == s.owned[x]))
  {
    hide DoRemove;
    RemovalOnlyLoses(s, r);
    OthersUntouched(s, r);
    var t := DoRemove(s, r);
    assert r.kind == DELETION;
    assert Found(t, kind, uuid) == Found(s, kind, uuid);
    forall x | x in DeleteRequests(t, uuid) ensures x in DeleteRequests(s, uuid) {}
  }

  lemma OthersUntouched(s: Store, r: Ref)
    ensures var t := DoRemove(s, r);
            forall x: Ref | x != r :: (x in t.owned <==> x in s.owned) && (x in s.owned ==> t.owned[x] == s.owned[x])
  {
  }

  lemma DirectIsNearer(s: Store, id: Id)
    requires Clean(s, id) && !Permanent(s, id) && s.crs[id].deleting && id.kind == NAB
    ensures Nearer(s, id, DirectPass(s, id).store)
  {
    hide StatusMarked, Found, LetGoStep, DoWriteStatus, DoRemove;
    var s1 := DoWriteStatus(s, id, Marked(s.crs[id].status, DirectDeletion));
    MarkingMarks(s, id, DirectDeletion);
    MarkedNowIsClean(s, id, s1);
    var uuid := s.crs[id].status.uuid;
    var requests := DeleteRequests(s1, uuid);
    var s2 := DropRequestStep(s1, id).store;
    if |requests| == 1 {
      assert Only(requests) in requests;
      DroppingRequestKeeps(s1, id, Only(requests));
    }
    LetGoIsNearer(s2, id);
    NearerIsTransitive(s, id, s1, s2, LetGoStep(s2, id, BACKUP).store);
  }

  /** The mark first, then something that keeps the measure, then something that brings the end nearer. */
  lemma NearerIsTransitive(s: Store, id: Id, s1: Store, s2: Store, t: Store)
    requires id in s.crs && id in s1.crs && id in s2.crs && MarkedNow(s, id, s1)
    requires Measure(s1, id) <= Measure(s, id) && (!StatusMarked(s, id) ==> Measure(s1, id) < Measure(s, id))
    requires VeleroRef(s1, id) == VeleroRef(s, id) && VeleroRef(s2, id) == VeleroRef(s, id)
    requires Measure(s2, id) == Measure(s1, id) && (Waiting(s2, id) ==> Waiting(s1, id))
    requires Nearer(s2, id, t)
    ensures Nearer(s, id, t)
  {
    hide Measure, Clean, StatusMarked;
    if Waiting(s1, id) && StatusMarked(s, id) {
      MarkedNowWaits(s, id, s1);
    }
  }

  lemma MarkedNowWaits(s: Store, id: Id, t: Store)
    requires MarkedNow(s, id, t) && Waiting(t, id) && StatusMarked(s, id)
    ensures Waiting(s, id)
  {
    hide StatusMarked;
    SameOwned(s, t, VeleroRef(s, id).kind, s.crs[id].status.uuid);
  }

  lemma RestoreIsNearer(s: Store, id: Id)
    requires Clean(s, id) && s.crs[id].deleting && id.kind == NAR
    ensures Nearer(s, id, RestoreDeletePass(s, id).store)
  {
    hide StatusMarked, Found, LetGoStep, DoWriteStatus;
    var s1 := DoWriteStatus(s, id, Marked(s.crs[id].status, AcceptedForDeletion));
    MarkingMarks(s, id, AcceptedForDeletion);
    MarkedNowIsClean(s, id, s1);
    LetGoIsNearer(s1, id);
    NearerIsTransitive(s, id, s1, s1, LetGoStep(s1, id, RESTORE).store);
  }

  lemma AskIsNearer(s: Store, id: Id, token: string)
    requires Clean(s, id) && Permanent(s, id) && s.crs[id].deleting && StatusMarked(s, id)
    requires DeleteRequestRef(s.crs[id].status.uuid, token) !in s.owned
    ensures Nearer(s, id, AskStep(s, id, token).store)
  {
    hide StatusMarked, Found, DeleteRequests;
    var ref := VeleroRef(s, id);
    var uuid := ref.name;
    OnlyMember(ref);
    if ref in s.owned {
      var requests := DeleteRequests(s, uuid);
      if |requests| == 1 {
        OneRequest(s, uuid);
        var st := WithOutcome(s.crs[id].status, s.owned[Only(requests)].body);
        OutcomeKeepsMark(s, id, st);
        MarkedNowIsClean(s, id, DoWriteStatus(s, id, st));
      } else {
        AskingIsNearer(s, id, token);
      }
    }
  }

  lemma OneRequest(s: Store, uuid: string)
    requires |DeleteRequests(s, uuid)| == 1
    ensures Only(DeleteRequests(s, uuid)) in s.owned
  {
    assert Only(DeleteRequests(s, uuid)) in DeleteRequests(s, uuid);
  }

  lemma OutcomeKeepsMark(s: Store, id: Id, st: Status)
    requires id in s.crs && StatusMarked(s, id) && st == s.crs[id].status.(deletion := st.deletion)
    ensures MarkedNow(s, id, DoWriteStatus(s, id, st))
  {
    StatusWritten(s, id, st);
    assert st.conds == s.crs[id].status.conds;
  }

  lemma AskingIsNearer(s: Store, id: Id, token: string)
    requires Clean(s, id) && Permanent(s, id) && s.crs[id].deleting && StatusMarked(s, id)
    requires VeleroRef(s, id) in s.owned && DeleteRequests(s, s.crs[id].status.uuid) == {}
    requires DeleteRequestRef(s.crs[id].status.uuid, token) !in s.owned
    ensures var uuid := s.crs[id].status.uuid;
            Nearer(s, id, DoPut(s, DeleteRequestRef(uuid, token), DeleteRequest(id, uuid, uuid)))
  {
    hide StatusMarked;
    var ref := VeleroRef(s, id);
    var uuid := ref.name;
    var r, o := DeleteRequestRef(uuid, token), DeleteRequest(id, uuid, uuid);
    var t := DoPut(s, r, o);
    SameObjectSameMark(s, t, id);
    assert Found(t, ref.kind, uuid) == Found(s, ref.kind, uuid);
    assert DeleteRequests(t, uuid) == {r};
  }

  lemma DeletionMarkIsNearer(s: Store, id: Id)
    requires Clean(s, id) && Permanent(s, id) && !s.crs[id].deleting
    ensures Nearer(s, id, MarkStep(s, id).store)
  {
    hide StatusMarked, DoWriteStatus, Found;
    var s1 := DoWriteStatus(s, id, Marked(s.crs[id].status, AcceptedForDeletion));
    MarkingMarks(s, id, AcceptedForDeletion);
    MarkedNowIsClean(s, id, s1);
    var t := DoDelete(s1, id);
    if s1.crs[id].finalizer {
      SameObjectSameMark(s1, t, id);
      SameOwned(s1, t, VeleroRef(s, id).kind, s.crs[id].status.uuid);
    }
  }

  lemma StandardIsNearer(s: Store, id: Id, mid: Store, token: string)
    requires Clean(s, id) && Permanent(s, id) && s.crs[id].deleting && id in mid.crs
    requires DependentsDeleted(MarkStep(s, id).store, mid, id, {})
    requires DeleteRequestRef(s.crs[id].status.uuid, token) !in s.owned
    ensures Nearer(s, id, AskStep(mid, id, token).store)
  {
    hide StatusMarked, Found, DoWriteStatus, AskStep;
    var s1 := MarkStep(s, id).store;
    MarkingMarks(s, id, AcceptedForDeletion);
    assert !DependsOn(id, s1.crs[id], id);
    assert SameCr(s1, mid, id);
    assert MarkedNow(s, id, mid) by { SameObjectSameMark(s1, mid, id); }
    MarkedNowIsClean(s, id, mid);
    AskIsNearer(mid, id, token);
    NearerIsTransitive(s, id, mid, mid, AskStep(mid, id, token).store);
  }

  /** Every undisturbed pass brings the end strictly nearer unless it waits for Velero; when
      the object goes, its Velero object is gone already. */
  lemma PassIsNearer(s: Store, id: Id, token: string, t: Store)
    requires Clean(s, id) && Requested(s, id) && PassEnds(s, id, token, t)
    requires DeleteRequestRef(s.crs[id].status.uuid, token) !in s.owned
    ensures Nearer(s, id, t)
  {
    hide Clean, Nearer, MarkStep, AskStep, DirectPass, RestoreDeletePass, DependentsDeleted;
    if Permanent(s, id) {
      MarkStepContinues(s, id);
      if s.crs[id].deleting {
        var mid :| DependentsDeleted(MarkStep(s, id).store, mid, id, {}) && id in mid.crs && t == AskStep(mid, id, token).store;
        StandardIsNearer(s, id, mid, token);
      } else {
        DeletionMarkIsNearer(s, id);
      }
    } else if id.kind == NAB {
      DirectIsNearer(s, id);
    } else {
      CleanKinds(s, id);
      RestoreIsNearer(s, id);
    }
  }

  /** A whole pass over a backup being deleted with its data deletes the restores of that backup,
      and no other restore and nothing else of any user. */
  lemma PassDeletesItsRestores(s: Store, id: Id, token: string, t: Store)
    requires id in s.crs && Permanent(s, id) && s.crs[id].deleting && PassEnds(s, id, token, t)
    ensures forall i: Id | i != id ::
              if i in s.crs && i.kind == NAR && i.ns == id.ns && StrOf(s.crs[i].spec.fields, BackupName) == id.name
              then DeletedOrMarked(s.crs[i], t, i)
              else SameCr(s, t, i)
  {
    hide DependentsDeleted, DoWriteStatus, Found, DeleteRequests;
    var marked := MarkStep(s, id).store;
    StatusWritten(s, id, Marked(s.crs[id].status, AcceptedForDeletion));
    var mid :| DependentsDeleted(marked, mid, id, {}) && id in mid.crs && t == AskStep(mid, id, token).store;
    DependentsAre(marked, mid, id);
    AskingTouchesOne(mid, id, token);
    forall i: Id | i != id
      ensures if i in s.crs && i.kind == NAR && i.ns == id.ns && StrOf(s.crs[i].spec.fields, BackupName) == id.name
              then DeletedOrMarked(s.crs[i], t, i)
              else SameCr(s, t, i)
    {
      assert SameCr(s, marked, i) && SameCr(mid, t, i);
    }
  }

  lemma AskingTouchesOne(s: Store, id: Id, token: string)
    requires id in s.crs
    ensures forall i: Id | i != id :: SameCr(s, AskStep(s, id, token).store, i)
  {
    hide Found, DeleteRequests;
  }

  lemma MarkStepContinues(s: Store, id: Id)
    requires id in s.crs
    ensures MarkStep(s, id).outcome == Continue <==> s.crs[id].deleting
  {
  }

  lemma CleanKinds(s: Store, id: Id)
    requires Clean(s, id) && id.kind != NAB
    ensures id.kind == NAR
  {
  }

  /** Velero answers: it deletes the backup that the delete request names, or lets go of an object. */
  ghost function VeleroAnswers(s: Store, id: Id): Store
    requires id in s.crs
  {
    if Permanent(s, id) then
      var requests := DeleteRequests(s, s.crs[id].status.uuid);
      if |requests| == 1 && s.owned[Only(requests)].body.Deletion?
      then Apply(s, Release(Ref(BACKUP, s.owned[Only(requests)].body.backup)))
      else s
    else Apply(s, Release(VeleroRef(s, id)))
  }

  /** What it deletes is the backup of this object, because that is what it was asked for. */
  lemma AnswerIsForThisBackup(s: Store, id: Id)
    requires Clean(s, id) && Waiting(s, id)
    ensures VeleroAnswers(s, id) == Apply(s, Release(VeleroRef(s, id)))
  {
    hide StatusMarked, Found;
    if Permanent(s, id) {
      var uuid := s.crs[id].status.uuid;
      var requests := DeleteRequests(s, uuid);
      assert requests != {};
      AtLeastOne(requests);
      assert Only(requests) in requests;
    }
  }

  lemma AtLeastOne(refs: set<Ref>)
    requires refs != {}
    ensures |refs| >= 1
  {
  }

  lemma AnswerIsNearer(cfg: Config, s: Store, id: Id)
    requires Clean(s, id) && Requested(s, id) && Waiting(s, id)
    ensures Enabled(cfg, s, Step(Velero, Release(VeleroRef(s, id))))
    ensures var t := VeleroAnswers(s, id);
            Clean(t, id) && Requested(t, id) && Measure(t, id) < Measure(s, id) && !Waiting(t, id)
            && VeleroRef(t, id) == VeleroRef(s, id)
  {
    hide StatusMarked, VeleroAnswers;
    AnswerIsForThisBackup(s, id);
    var ref := VeleroRef(s, id);
    var t := VeleroAnswers(s, id);
    SameObjectSameMark(s, t, id);
    assert Found(t, ref.kind, ref.name) == {} by {
      forall r ensures r !in Found(t, ref.kind, ref.name) {
        assert r in Found(s, ref.kind, ref.name) ==> r == ref;
      }
    }
    assert DeleteRequests(t, ref.name) == DeleteRequests(s, ref.name);
  }

  // ---- The whole deletion ----

  /** One step of the deletion: an undisturbed pass that is not waiting, or Velero's answer. */
  ghost predicate Advances(s: Store, id: Id, t: Store) {
    && id in s.crs
    && if Waiting(s, id) then t == VeleroAnswers(s, id)
       else exists token :: DeleteRequestRef(s.crs[id].status.uuid, token) !in s.owned && PassEnds(s, id, token, t)
  }

  ghost predicate IsDeletion(id: Id, states: seq<Store>) {
    && |states| > 0
    && forall i | 0 <= i < |states| - 1 :: Advances(states[i], id, states[i + 1])
  }

  /** A deletion has at most as many steps as its measure says, and whenever the object is
      gone its Velero object is gone as well. */
  lemma {:induction false} DeletionTerminates(id: Id, states: seq<Store>)
    requires IsDeletion(id, states) && Clean(states[0], id) && Requested(states[0], id)
    ensures |states| - 1 <= Measure(states[0], id) <= 31
    ensures var t, ref := states[|states| - 1], VeleroRef(states[0], id);
            if id in t.crs then Clean(t, id) && Requested(t, id) && VeleroRef(t, id) == ref
            else ref.name != "" ==> ref !in t.owned
    decreases |states|
  {
    hide Clean, Advances, Waiting;
    if |states| > 1 {
      AdvanceIsNearer(states[0], id, states[1]);
      var rest := states[1..];
      forall i | 0 <= i < |rest| - 1 ensures Advances(rest[i], id, rest[i + 1]) {
        assert Advances(states[i + 1], id, states[i + 2]);
      }
      if id in states[1].crs {
        DeletionTerminates(id, rest);
      } else {
        if |states| > 2 {
          assert Advances(states[1], id, states[2]);
          NoAdvanceWithout(states[1], id, states[2]);
        }
      }
    }
  }

  lemma NoAdvanceWithout(s: Store, id: Id, t: Store)
    requires Advances(s, id, t)
    ensures id in s.crs
  {
  }

  lemma AdvanceIsNearer(s: Store, id: Id, t: Store)
    requires Clean(s, id) && Requested(s, id) && Advances(s, id, t)
    ensures if id in t.crs then
              Clean(t, id) && Requested(t, id) && VeleroRef(t, id) == VeleroRef(s, id) && Measure(t, id) < Measure(s, id)
            else VeleroRef(s, id).name != "" ==> VeleroRef(s, id) !in t.owned
  {
    hide Clean, PassEnds, Waiting, Measure;
    if Waiting(s, id) {
      AnswerIsNearer(Config([], map[], map[], map[], 0, None, false, false, {}, false), s, id);
    } else {
      var token :| DeleteRequestRef(s.crs[id].status.uuid, token) !in s.owned && PassEnds(s, id, token, t);
      PassIsNearer(s, id, token, t);
    }
  }

  // ---- Passes cut off ----

  /** Where a pass may stop: at its end, before its first write, or between any two of its writes. */
  ghost predicate PassStops(s: Store, id: Id, token: string, t: Store)
    requires id in s.crs
  {
    var direct := id.kind == NAB && !Permanent(s, id);
    var marked := DoWriteStatus(s, id, Marked(s.crs[id].status, if direct then DirectDeletion else AcceptedForDeletion));
    || PassEnds(s, id, token, t) || t == s || t == marked
    || (direct && t == DropRequestStep(marked, id).store)
    || (Permanent(s, id) && s.crs[id].deleting && exists rest :: DependentsDeleted(marked, t, id, rest))
  }

  /** The object is no further from its end than it was. */
  ghost predicate NoFarther(s: Store, id: Id, t: Store)
    requires id in s.crs
  {
    if id in t.crs then
      Clean(t, id) && Requested(t, id) && VeleroRef(t, id) == VeleroRef(s, id) && Measure(t, id) <= Measure(s, id)
    else VeleroRef(s, id).name != "" ==> VeleroRef(s, id) !in t.owned
  }

  lemma DroppedIsNoFarther(s: Store, id: Id)
    requires Clean(s, id) && !Permanent(s, id) && s.crs[id].deleting && id.kind == NAB
    ensures NoFarther(s, id, DropRequestStep(s, id).store)
  {
    hide StatusMarked;
    var uuid := s.crs[id].status.uuid;
    var requests := DeleteRequests(s, uuid);
    if |requests| == 1 {
      assert Only(requests) in requests;
      DroppingRequestKeeps(s, id, Only(requests));
    }
  }

  lemma PartlyDeletedIsNoFarther(s: Store, id: Id, marked: Store, t: Store, rest: set<Id>)
    requires MarkedNow(s, id, marked) && Clean(s, id) && Requested(s, id) && DependentsDeleted(marked, t, id, rest)
    ensures NoFarther(s, id, t)
  {
    hide StatusMarked, Measure;
    assert !DependsOn(id, marked.crs[id], id);
    assert SameCr(marked, t, id);
    assert MarkedNow(s, id, t) by { SameObjectSameMark(marked, t, id); }
    MarkedNowIsClean(s, id, t);
  }

  /** A pass cut off between any two of its writes leaves the object no further from its end. */
  lemma CutPassLosesNothing(s: Store, id: Id, token: string, t: Store)
    requires Clean(s, id) && Requested(s, id) && PassStops(s, id, token, t)
    requires DeleteRequestRef(s.crs[id].status.uuid, token) !in s.owned
    ensures NoFarther(s, id, t)
  {
    hide Clean, Measure, PassEnds, DropRequestStep, DependentsDeleted, Marked, MarkedNow, StatusMarked, DoWriteStatus;
    var direct := id.kind == NAB && !Permanent(s, id);
    var message := if direct then DirectDeletion else AcceptedForDeletion;
    var marked := DoWriteStatus(s, id, Marked(s.crs[id].status, message));
    CleanKindsAll(s, id);
    MarkingMarks(s, id, message);
    MarkIsNoFarther(s, id, marked);
    if PassEnds(s, id, token, t) {
      PassIsNearer(s, id, token, t);
    } else if direct && t == DropRequestStep(marked, id).store {
      DroppedIsNoFarther(marked, id);
    } else if t != s && t != marked {
      var rest :| DependentsDeleted(marked, t, id, rest);
      PartlyDeletedIsNoFarther(s, id, marked, t, rest);
    }
  }

  lemma CleanKindsAll(s: Store, id: Id)
    requires Clean(s, id)
    ensures id.kind == NAB || id.kind == NAR
  {
  }

  lemma MarkIsNoFarther(s: Store, id: Id, t: Store)
    requires MarkedNow(s, id, t) && Clean(s, id) && Requested(s, id)
    ensures NoFarther(s, id, t) && t.crs[id].deleting == s.crs[id].deleting && Permanent(t, id) == Permanent(s, id)
  {
    hide StatusMarked, Measure;
    MarkedNowIsClean(s, id, t);
  }

  /** A step of a deletion that may also be a pass cut off, or one that found nothing to do but wait. */
  ghost predicate AdvancesOrStops(s: Store, id: Id, t: Store) {
    || Advances(s, id, t)
    || (id in s.crs && exists token :: DeleteRequestRef(s.crs[id].status.uuid, token) !in s.owned && PassStops(s, id, token, t))
  }

  ghost predicate IsInterrupted(id: Id, states: seq<Store>) {
    && |states| > 0
    && forall i {:trigger states[i]} | 0 < i < |states| :: AdvancesOrStops(states[i - 1], id, states[i])
  }

  /** How many steps of it were whole: passes run to their end with something to do, answers of Velero. */
  ghost function WholeSteps(id: Id, states: seq<Store>): nat
    requires |states| > 0
  {
    if |states| == 1 then 0
    else WholeSteps(id, states[..|states| - 1])
         + if Advances(states[|states| - 2], id, states[|states| - 1]) then 1 else 0
  }

  /** However often passes are cut off or repeated, a deletion has at most as many whole steps
      as its measure says, and it is over only when the Velero object is gone. */
  lemma {:induction false} CrashesOnlyDelay(id: Id, states: seq<Store>)
    requires IsInterrupted(id, states) && Clean(states[0], id) && Requested(states[0], id)
    ensures var t, ref := states[|states| - 1], VeleroRef(states[0], id);
            && WholeSteps(id, states) + Measure(t, id) <= Measure(states[0], id) <= 31
            && if id in t.crs then Clean(t, id) && Requested(t, id) && VeleroRef(t, id) == ref
               else ref.name != "" ==> ref !in t.owned
    decreases |states|
  {
    hide Clean, Advances, PassStops, Measure, AdvancesOrStops;
    MeasureIsSmall(states[0], id);
    var n := |states|;
    if n > 1 {
      var before := states[..n - 1];
      CrashesOnlyDelay(id, before);
      assert AdvancesOrStops(states[n - 2], id, states[n - 1]);
      OneStepOn(states[n - 2], id, states[n - 1]);
    }
  }

  lemma MeasureIsSmall(s: Store, id: Id)
    ensures Measure(s, id) <= 31
  {
  }

  lemma OneStepOn(s: Store, id: Id, t: Store)
    requires AdvancesOrStops(s, id, t) && (id in s.crs ==> Clean(s, id) && Requested(s, id))
    ensures id in s.crs && NoFarther(s, id, t) && Measure(t, id) <= Measure(s, id)
    ensures Advances(s, id, t) ==> Measure(t, id) < Measure(s, id)
  {
    hide Clean, PassStops, PassEnds, Waiting;
    if Advances(s, id, t) {
      AdvanceIsNearer(s, id, t);
    } else {
      var token :| DeleteRequestRef(s.crs[id].status.uuid, token) !in s.owned && PassStops(s, id, token, t);
      CutPassLosesNothing(s, id, token, t);
    }
  }

  /** Some order of deleting the dependents always exists. */
  function WithoutDependents(s: Store, parent: Id): Store {
    s.(crs := map id | id in s.crs && (!DependsOn(id, s.crs[id], parent) || s.crs[id].deleting || s.crs[id].finalizer) ::
                if DependsOn(id, s.crs[id], parent) then s.crs[id].(deleting := true) else s.crs[id])
  }

  /** As long as the object is there, a next step exists. */
  lemma DeletionIsNeverStuck(s: Store, id: Id, token: string)
    requires Clean(s, id) && Requested(s, id) && DeleteRequestRef(s.crs[id].status.uuid, token) !in s.owned
    ensures exists t :: Advances(s, id, t)
  {
    hide Clean, Waiting, MarkStep, AskStep, DirectPass, RestoreDeletePass;
    if Waiting(s, id) {
      assert Advances(s, id, VeleroAnswers(s, id));
    } else if Permanent(s, id) {
      if MarkStep(s, id).outcome == Continue {
        var s1 := MarkStep(s, id).store;
        var mid := WithoutDependents(s1, id);
        MarkStepKeepsObject(s, id);
        assert !DependsOn(id, s1.crs[id], id);
        assert DependentsDeleted(s1, mid, id, {});
        assert PassEnds(s, id, token, AskStep(mid, id, token).store);
        assert Advances(s, id, AskStep(mid, id, token).store);
      } else {
        assert PassEnds(s, id, token, MarkStep(s, id).store);
        assert Advances(s, id, MarkStep(s, id).store);
      }
    } else if id.kind == NAB {
      assert PassEnds(s, id, token, DirectPass(s, id).store);
      assert Advances(s, id, DirectPass(s, id).store);
    } else {
      assert PassEnds(s, id, token, RestoreDeletePass(s, id).store);
      assert Advances(s, id, RestoreDeletePass(s, id).store);
    }
  }

  lemma MarkStepKeepsObject(s: Store, id: Id)
    requires id in s.crs && MarkStep(s, id).outcome == Continue
    ensures id in MarkStep(s, id).store.crs
  {
  }
}
