/**
 What a controller working on one object may count on while everybody else writes.
 There is one worker per object, so "everybody else" is every actor but that worker.
 */
module Interference {
  import opened Objects
  import opened Cluster
  import opened Protocol
  import opened Naming

  /** No name in use ends in this UUID. */
  predicate TokenFree(s: Store, token: string) {
    && (forall v | v in s.issued :: !EndsWith(v, token))
    && (forall ref | ref in s.owned ::
          && !EndsWith(ref.name, token)
          && (BackupNameLabel in s.owned[ref].labels ==> !EndsWith(s.owned[ref].labels[BackupNameLabel], token)))
  }

  /** The write brings into use a name that ends in this UUID. */
  predicate Introduces(s: Store, op: Op, token: string) {
    match op
    case WriteStatus(_, status) => status.uuid !in s.issued && EndsWith(status.uuid, token)
    case Put(ref, o) =>
      || (ref !in s.owned && EndsWith(ref.name, token))
      || (BackupNameLabel in o.labels && o.labels[BackupNameLabel] !in s.issued
          && EndsWith(o.labels[BackupNameLabel], token))
    case Import(ref, o) =>
      EndsWith(ref.name, token) || (BackupNameLabel in o.labels && EndsWith(o.labels[BackupNameLabel], token))
    case _ => false
  }

  lemma FreshNameUnused(s: Store, token: string, uuid: string)
    requires TokenFree(s, token) && EndsWith(uuid, token)
    ensures NameUnused(s, uuid)
  {
  }

  /** Nobody else creates requests under NACUUIDs made for me, or fills in their source. */
  ghost predicate RequestsMine(s: Store, t: Store, me: Id) {
    forall ref | ref in t.owned && ref.kind == REQUEST && IssuedTo(s, me, ref.name) && Claimed(ref, t.owned[ref]) ::
      && ref in s.owned && Claimed(ref, s.owned[ref])
      && (t.owned[ref].body.Request? ==>
            s.owned[ref].body.Request? && t.owned[ref].body.source == s.owned[ref].body.source)
  }

  /** What nobody else takes from, or adds to, an object that holds its finalizer. */
  ghost predicate StillMine(cfg: Config, s: Store, t: Store, me: Id)
    requires me in s.crs
  {
    var uuid := s.crs[me].status.uuid;
    && me in t.crs && t.crs[me].finalizer && t.crs[me].status == s.crs[me].status && t.crs[me].uid == s.crs[me].uid
    && (s.crs[me].deleting ==> t.crs[me].deleting)
    && (forall ref | ref in t.owned && ref.name == uuid && Guarded(cfg.reimports, ref.kind) && OwnerKind(ref.kind) == me.kind ::
          ref in s.owned)
    && (me.kind == NAB ==> forall ref | ForBackup(t.owned, ref, uuid) :: ForBackup(s.owned, ref, uuid))
    && (me.kind == NABSL && Freezes(cfg, uuid) && Alive(t.crs, me) && SourceOf(s.owned, uuid).Some? ==>
          SourceOf(t.owned, uuid) == SourceOf(s.owned, uuid))
  }

  ghost predicate Rely(cfg: Config, me: Id, token: string, s: Store, t: Store) {
    && s.rv <= t.rv && Extends(s.issued, t.issued)
    && (TokenFree(s, token) ==> TokenFree(t, token))
    && (me in t.crs ==> t.crs[me].rv > s.rv || (me in s.crs && t.crs[me] == s.crs[me]))
    && (forall ref | ref in t.owned :: t.owned[ref].rv > s.rv || (ref in s.owned && t.owned[ref] == s.owned[ref]))
    && (!cfg.staleReads ==>
          && RequestsMine(s, t, me)
          && (me in s.crs && s.crs[me].finalizer ==> StillMine(cfg, s, t, me)))
  }

  lemma RelyReflexive(cfg: Config, me: Id, token: string, s: Store)
    ensures Rely(cfg, me, token, s, s)
  {
  }

  lemma RelyTransitive(cfg: Config, me: Id, token: string, s: Store, t: Store, u: Store)
    requires Rely(cfg, me, token, s, t) && Rely(cfg, me, token, t, u)
    ensures Rely(cfg, me, token, s, u)
  {
    hide TokenFree, SourceOf, Freezes, Claimed;
  }

  lemma OthersLeaveMyObject(cfg: Config, me: Id, s: Store, step: Step)
    requires Inv(cfg, s) && Enabled(cfg, s, step) && step.actor != Worker(me)
    ensures var t := Apply(s, step.op);
            && (me in t.crs ==> t.crs[me].rv > s.rv || (me in s.crs && t.crs[me] == s.crs[me]))
            && (me in s.crs && s.crs[me].finalizer ==>
                  && me in t.crs && t.crs[me].finalizer && t.crs[me].status == s.crs[me].status
                  && t.crs[me].uid == s.crs[me].uid && (s.crs[me].deleting ==> t.crs[me].deleting))
  {
    hide Inv, WorkerMayPut, OutsiderMayPut, MayRemove, SyncSource, NameUnused, StatusFollows, DoPut, DoRemove;
    if WritesObjects(step.op) {
      ObjectWritesLeaveCrs(s, step.op);
    }
  }

  lemma OthersLeaveMyRequests(cfg: Config, me: Id, s: Store, step: Step)
    requires Inv(cfg, s) && !cfg.staleReads && Enabled(cfg, s, step) && step.actor != Worker(me)
    ensures RequestsMine(s, Apply(s, step.op), me)
  {
    hide CrsOk, NamesOk, OwnersOk, PlainOk, DeletionsOk, FrozenOk, SyncSource, Frozen, SyncLabelsOk, OwnUuids,
         VersionsOk, ShapeOk, DoCreate, DoEdit, DoDelete, DoWriteStatus, DoWriteFinalizer, StatusFollows, NameUnused;
    var t := Apply(s, step.op);
    OwnedOnlyByPut(s, step.op);
    if step.op.Put? {
      var ref := step.op.ref;
      assert ref in s.owned ==> NameIssued(s.issued, ref, s.owned[ref]);
      assert ref in s.owned && ref.kind == REQUEST && Claimed(ref, s.owned[ref]) ==>
          RequestOk(s.issued, ref, s.owned[ref]);
    }
  }

  /** What others write lands under other names. */
  lemma OthersUseOtherNames(cfg: Config, me: Id, s: Store, step: Step)
    requires Inv(cfg, s) && !cfg.staleReads && Enabled(cfg, s, step) && step.actor != Worker(me)
    requires me in s.crs && s.crs[me].finalizer
    ensures var t, uuid := Apply(s, step.op), s.crs[me].status.uuid;
            && (forall ref | ref in t.owned && ref.name == uuid && Guarded(cfg.reimports, ref.kind) && OwnerKind(ref.kind) == me.kind ::
                  ref in s.owned)
            && (me.kind == NAB ==> forall ref | ForBackup(t.owned, ref, uuid) :: ForBackup(s.owned, ref, uuid))
  {
    hide NamesOk, IssuedNames, BackupsOk, OwnersOk, RequestsOk, PlainOk, FrozenOk, SyncSource, DeletionsOk, SyncLabelsOk,
         VersionsOk, Frozen, ShapeOk, MayRemove, DoCreate, DoEdit, DoDelete, DoWriteStatus, DoWriteFinalizer;
    assert CrOk(s.rv, s.issued, me, s.crs[me]);
    OwnedOnlyByPut(s, step.op);
    if step.op.Put? {
      PutUsesOtherName(cfg, me, s, step.actor, step.op.ref, step.op.o);
    }
  }

  lemma PutUsesOtherName(cfg: Config, me: Id, s: Store, actor: Actor, ref: Ref, o: Owned)
    requires Inv(cfg, s) && !cfg.staleReads && Enabled(cfg, s, Step(actor, Put(ref, o))) && actor != Worker(me)
    requires me in s.crs && s.crs[me].finalizer
    ensures ref !in s.owned && Guarded(cfg.reimports, ref.kind) && OwnerKind(ref.kind) == me.kind ==>
              ref.name != s.crs[me].status.uuid
    ensures me.kind == NAB && ref.kind == DELETION && HasValue(o.labels, BackupNameLabel, s.crs[me].status.uuid) ==>
              ForBackup(s.owned, ref, s.crs[me].status.uuid)
  {
    hide NamesOk, IssuedNames, BackupsOk, OwnersOk, RequestsOk, PlainOk, FrozenOk, DeletionsOk, SyncLabelsOk, VersionsOk,
         Frozen, ShapeOk;
    assert CrOk(s.rv, s.issued, me, s.crs[me]);
  }

  lemma OthersKeepMySource(cfg: Config, me: Id, s: Store, step: Step)
    requires me in s.crs && s.crs[me].finalizer && me.kind == NABSL && Alive(s.crs, me)
    requires Inv(cfg, s) && Freezes(cfg, s.crs[me].status.uuid) && Enabled(cfg, s, step) && step.actor != Worker(me)
    requires SourceOf(s.owned, s.crs[me].status.uuid).Some?
    ensures SourceOf(Apply(s, step.op).owned, s.crs[me].status.uuid) == SourceOf(s.owned, s.crs[me].status.uuid)
  {
    hide NamesOk, OwnersOk, PlainOk, DeletionsOk, FrozenOk, SyncSource, Frozen, SyncLabelsOk, VersionsOk, ShapeOk, OwnUuids,
         CrsOk, BackupsOk, DoCreate, DoEdit, DoDelete, DoWriteStatus, DoWriteFinalizer;
    var uuid := s.crs[me].status.uuid;
    var ref := Ref(REQUEST, uuid);
    HolderIsIssuedTo(cfg, s, me, uuid);
    assert NameIssued(s.issued, ref, s.owned[ref]);
    assert RequestOk(s.issued, ref, s.owned[ref]);
    if step.op.Remove? {
      if step.actor.Worker? && step.actor.id in s.crs && s.crs[step.actor.id].status.uuid == uuid {
        CarrierIsIssuedTo(cfg, s, step.actor.id);
      }
    } else if !step.op.Put? && !step.op.Import? && !step.op.Release? {
      CrWritesLeaveOwned(s, step.op);
    }
  }

  lemma OthersLeaveToken(cfg: Config, s: Store, op: Op, token: string)
    requires !Introduces(s, op, token) && TokenFree(s, token)
    ensures TokenFree(Apply(s, op), token)
  {
    hide DoCreate, DoEdit, DoDelete, DoWriteFinalizer, NameUnused;
    match op
    case Put(ref, o) =>
    case Import(ref, o) =>
    case Remove(ref) =>
    case Release(ref) =>
    case _ => OwnedOnlyByPut(s, op);
      CrWritesLeaveOwned(s, op);
  }

  lemma ObjectVersionsGrow(s: Store, op: Op)
    ensures forall ref | ref in Apply(s, op).owned ::
              Apply(s, op).owned[ref].rv > s.rv || (ref in s.owned && Apply(s, op).owned[ref] == s.owned[ref])
  {
    hide DoCreate, DoEdit, DoDelete, DoWriteStatus, DoWriteFinalizer;
    if !op.Put? && !op.Import? && !op.Remove? && !op.Release? {
      CrWritesLeaveOwned(s, op);
    }
  }

  lemma CountersGrow(s: Store, op: Op)
    ensures s.rv <= Apply(s, op).rv && Extends(s.issued, Apply(s, op).issued)
  {
  }

  /** Every write of anybody else keeps what the worker counts on. */
  lemma OthersRely(cfg: Config, me: Id, token: string, s: Store, step: Step)
    requires Inv(cfg, s) && Enabled(cfg, s, step) && step.actor != Worker(me) && !Introduces(s, step.op, token)
    ensures Rely(cfg, me, token, s, Apply(s, step.op))
  {
    hide Inv, Enabled, Apply, Introduces, TokenFree, RequestsMine, SourceOf, Extends;
    ObjectVersionsGrow(s, step.op);
    CountersGrow(s, step.op);
    OthersLeaveMyObject(cfg, me, s, step);
    if TokenFree(s, token) {
      OthersLeaveToken(cfg, s, step.op, token);
    }
    if !cfg.staleReads {
      OthersLeaveMyRequests(cfg, me, s, step);
      if me in s.crs && s.crs[me].finalizer {
        OthersUseOtherNames(cfg, me, s, step);
        if me.kind == NABSL && Freezes(cfg, s.crs[me].status.uuid) && Alive(s.crs, me)
           && SourceOf(s.owned, s.crs[me].status.uuid).Some?
        {
          OthersKeepMySource(cfg, me, s, step);
        }
      }
    }
  }
}
