/**
 What the controllers' step functions have in common: their outcomes, the steps all three
 share, and the facts about lookups, finalizers and dependents they rest on.
 */
module Steps {
  import opened Objects
  import opened Cluster
  import opened Protocol
  import opened Interference
  import opened ApiClient
  import opened Sets

  datatype Outcome = Continue | Requeue | Failed
  datatype Out = Out(store: Store, outcome: Outcome)

  ghost function Only(refs: set<Ref>): Ref
    requires |refs| == 1
    ensures refs == {Only(refs)}
  {
    var ref :| ref in refs;
    assert refs == {ref} by {
      if refs != {ref} {
        TwoMembers(refs, ref);
      }
    }
    ref
  }

  lemma OnlyMember(ref: Ref)
    ensures |{ref}| == 1 && Only({ref}) == ref
  {
  }

  function NewObject(id: Id, uuid: string, body: Body): Owned {
    Owned(OwnerLabels(id.kind, uuid), OwnerAnnotations(id), 0, false, false, body)
  }

  ghost function Found(s: Store, kind: OwnedKind, uuid: string): set<Ref> {
    Matching(s, kind, OriginUuid(OwnerKind(kind)), uuid)
  }

  function InitStep(s: Store, id: Id): (out: Out)
    requires id in s.crs
    ensures out.outcome == Continue
    ensures id in out.store.crs
  {
    var st := s.crs[id].status;
    Out(if st.phase == Unset then DoWriteStatus(s, id, st.(phase := New)) else s, Continue)
  }

  function FinalizerStep(s: Store, id: Id): (out: Out)
    ensures out.outcome == Continue
    ensures id in s.crs ==> id in out.store.crs
  {
    Out(DoWriteFinalizer(s, id, true), Continue)
  }

  predicate Says(st: Status, t: ConditionType, status: bool, reason: Reason) {
    t in st.conds && st.conds[t].status == status && st.conds[t].reason == reason
  }

  /** A rejected spec: the status says so, and nothing else has changed. */
  ghost predicate IsRejected(s: Store, t: Store, id: Id, reason: Reason) {
    && id in s.crs && id in t.crs && t.owned == s.owned && (forall i: Id | i != id :: SameCr(s, t, i))
    && t.crs[id].status.phase == BackingOff && Says(t.crs[id].status, Accepted, false, reason)
    && t.crs[id].spec == s.crs[id].spec && t.crs[id].status.uuid == s.crs[id].status.uuid
    && t.crs[id].finalizer == s.crs[id].finalizer
  }

  lemma FoundIsNamed(cfg: Config, s: Store, ref: Ref, uuid: string)
    requires Inv(cfg, s) && ref.kind != DELETION && ref in Found(s, ref.kind, uuid)
    ensures ref.name == uuid
  {
    hide CrsOk, OwnershipOk, FrozenOk, VersionsOk;
    assert NamedByLabel(ref, s.owned[ref]);
  }

  lemma NoneFoundNoneNamed(cfg: Config, s: Store, me: Id, kind: OwnedKind, uuid: string)
    requires Inv(cfg, s) && kind != DELETION && OwnerKind(kind) == me.kind
    requires !cfg.staleReads && uuid != "" ==> IssuedTo(s, me, uuid)
    ensures !cfg.staleReads && uuid != "" && Ref(kind, uuid) in s.owned ==> Ref(kind, uuid) in Found(s, kind, uuid)
    ensures |Found(s, kind, uuid)| <= 1
  {
    hide CrsOk, OwnersOk, RequestsOk, PlainOk, DeletionsOk, FrozenOk, VersionsOk, SyncLabelsOk, OwnUuids;
    var ref := Ref(kind, uuid);
    if !cfg.staleReads && uuid != "" && ref in s.owned {
      assert NameIssued(s.issued, ref, s.owned[ref]);
      assert NamedByLabel(ref, s.owned[ref]);
    }
    AtMostOneFound(cfg, s, kind, uuid);
  }

  lemma AtMostOneFound(cfg: Config, s: Store, kind: OwnedKind, uuid: string)
    requires Inv(cfg, s) && kind != DELETION
    ensures Found(s, kind, uuid) <= {Ref(kind, uuid)} && |Found(s, kind, uuid)| <= 1
  {
    forall ref | ref in Found(s, kind, uuid) ensures ref == Ref(kind, uuid) {
      FoundIsNamed(cfg, s, ref, uuid);
    }
    SubsetSize(Found(s, kind, uuid), {Ref(kind, uuid)});
  }

  lemma AbsenceStays(cfg: Config, me: Id, token: string, s: Store, t: Store, c: Cr, kind: OwnedKind)
    requires Rely(cfg, me, token, s, t) && Knows(cfg, s, me, c)
    requires Guarded(cfg.reimports, kind) && OwnerKind(kind) == me.kind
    ensures !cfg.staleReads && c.finalizer && Ref(kind, c.status.uuid) !in s.owned ==> Ref(kind, c.status.uuid) !in t.owned
  {
    hide TokenFree, ShapeOk, RequestsMine, Extends, SourceOf;
  }

  lemma PlainIsNotHeld(cfg: Config, s: Store, me: Id, ref: Ref, uuid: string)
    requires Inv(cfg, s) && !cfg.staleReads && OwnerKind(ref.kind) == NABSL && ref.name == uuid
    requires uuid != "" ==> IssuedTo(s, me, uuid)
    ensures uuid != "" && ref in s.owned ==> !s.owned[ref].held
  {
    hide CrsOk, NamesOk, OwnersOk, RequestsOk, DeletionsOk, FrozenOk, VersionsOk, SyncLabelsOk, OwnUuids;
    if uuid != "" && ref in s.owned {
      assert NameIssued(s.issued, ref, s.owned[ref]);
      assert PlainObject(ref, s.owned[ref]);
    }
  }

  lemma StatusWritten(s: Store, id: Id, st: Status)
    requires id in s.crs
    ensures var t := DoWriteStatus(s, id, st);
            && id in t.crs && t.crs[id] == s.crs[id].(status := st, rv := t.crs[id].rv) && t.owned == s.owned
            && t.clock == s.clock && t.namespaces == s.namespaces && t.secrets == s.secrets
            && forall i: Id | i != id :: SameCr(s, t, i)
  {
  }

  lemma SameStatusIsNoWrite(s: Store, id: Id)
    ensures id in s.crs ==> DoWriteStatus(s, id, s.crs[id].status) == s
  {
  }

  /** A backup depends on the location it is stored in, a restore on its backup. */
  predicate DependsOn(id: Id, c: Cr, parent: Id) {
    && id.ns == parent.ns
    && match parent.kind
       case NABSL => id.kind == NAB && StrOf(c.spec.fields, StorageLocation) == parent.name
       case NAB => id.kind == NAR && StrOf(c.spec.fields, BackupName) == parent.name
       case NAR => false
  }

  predicate DeletedOrMarked(c: Cr, t: Store, id: Id) {
    if c.deleting || c.finalizer then id in t.crs && t.crs[id] == c.(deleting := true, rv := t.crs[id].rv)
    else id !in t.crs
  }

  /** The restores of this namespace that are of this backup are gone or marked, and no others. */
  ghost predicate RestoresGo(s: Store, t: Store, ns: string, backup: string) {
    forall id: Id ::
      if id in s.crs && id.kind == NAR && id.ns == ns && StrOf(s.crs[id].spec.fields, BackupName) == backup
      then DeletedOrMarked(s.crs[id], t, id)
      else SameCr(s, t, id)
  }

  /** The backups of this namespace that are stored in this location are gone or marked, and no others. */
  ghost predicate BackupsGo(s: Store, t: Store, ns: string, location: string) {
    forall id: Id ::
      if id in s.crs && id.kind == NAB && id.ns == ns && StrOf(s.crs[id].spec.fields, StorageLocation) == location
      then DeletedOrMarked(s.crs[id], t, id)
      else SameCr(s, t, id)
  }

  lemma DependentsAre(s: Store, t: Store, parent: Id)
    requires DependentsDeleted(s, t, parent, {})
    ensures parent.kind == NAB ==> RestoresGo(s, t, parent.ns, parent.name)
    ensures parent.kind == NABSL ==> BackupsGo(s, t, parent.ns, parent.name)
  {
  }

  /** The dependents are gone or marked, but for the rest; nothing else changed. */
  ghost predicate DependentsDeleted(s: Store, t: Store, parent: Id, rest: set<Id>) {
    && t.owned == s.owned && t.issued == s.issued && t.secrets == s.secrets
    && t.clock == s.clock && t.namespaces == s.namespaces
    && (forall id | id in s.crs && DependsOn(id, s.crs[id], parent) && id !in rest :: DeletedOrMarked(s.crs[id], t, id))
    && (forall id | id in rest || !(id in s.crs && DependsOn(id, s.crs[id], parent)) :: SameCr(s, t, id))
  }

  function RestOf(items: seq<(Id, Cr)>, i: nat, parent: Id): set<Id> {
    set j | i <= j < |items| && DependsOn(items[j].0, items[j].1, parent) :: items[j].0
  }

  lemma RestShrinks(s: Store, kind: Kind, parent: Id, items: seq<(Id, Cr)>, i: nat)
    requires IsListing(s.crs, kind, parent.ns, items) && i < |items|
    ensures RestOf(items, i + 1, parent) == RestOf(items, i, parent) - {items[i].0}
    ensures items[i].0 in s.crs && s.crs[items[i].0] == items[i].1 && items[i].0.kind == kind
  {
    assert items[i] in items;
    forall id | id in RestOf(items, i, parent) && id != items[i].0 ensures id in RestOf(items, i + 1, parent) {
      var j :| i <= j < |items| && DependsOn(items[j].0, items[j].1, parent) && items[j].0 == id;
      assert j != i;
    }
  }

  /** A list of the namespace holds all dependents. */
  lemma DependentsListed(s: Store, parent: Id, items: seq<(Id, Cr)>, rest: set<Id>)
    requires parent.kind != NAR && IsListing(s.crs, if parent.kind == NABSL then NAB else NAR, parent.ns, items)
    requires rest == set id | id in s.crs && DependsOn(id, s.crs[id], parent)
    ensures rest == RestOf(items, 0, parent) && RestOf(items, |items|, parent) == {}
  {
    forall id | id in rest ensures id in RestOf(items, 0, parent) {
      assert (id, s.crs[id]) in items;
      var j :| 0 <= j < |items| && items[j] == (id, s.crs[id]);
      assert items[j].0 == id;
    }
    forall j | 0 <= j < |items| && DependsOn(items[j].0, items[j].1, parent) ensures items[j].0 in rest {
      assert items[j] in items;
    }
  }

  lemma OneMoreDeleted(s: Store, t: Store, parent: Id, rest: set<Id>, id: Id)
    requires DependentsDeleted(s, t, parent, rest) && id in s.crs && DependsOn(id, s.crs[id], parent)
    ensures DependentsDeleted(s, DoDelete(t, id), parent, rest - {id})
  {
  }

  lemma OtherDeletedStillKnown(cfg: Config, s: Store, me: Id, id: Id, c: Cr)
    requires Knows(cfg, s, me, c) && id != me
    ensures Knows(cfg, DoDelete(s, id), me, c)
  {
    hide ShapeOk;
  }

  lemma NothingProtectedStays(cfg: Config, me: Id, token: string, s: Store, t: Store, c: Cr)
    requires Rely(cfg, me, token, s, t) && Knows(cfg, s, me, c) && c.finalizer
    ensures !cfg.staleReads && NothingProtected(cfg.reimports, s.owned, me, c.status.uuid) ==> NothingProtected(cfg.reimports, t.owned, me, c.status.uuid)
  {
    hide TokenFree, ShapeOk, RequestsMine, Extends, SourceOf;
  }

  lemma TokenStaysFree(cfg: Config, me: Id, token: string, s: Store, t: Store)
    requires Rely(cfg, me, token, s, t)
    ensures TokenFree(s, token) ==> TokenFree(t, token)
  {
  }
}
