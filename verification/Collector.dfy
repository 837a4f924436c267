/**
 The garbage collector: five sweeps that run at the same time, each listing one kind of
 object in the OADP namespace and deleting what has lost its origin.
 */
module Collector {
  import opened Objects
  import opened Cluster
  import opened Protocol

  /** The label and annotations that let a sweep look for the origin. */
  predicate WellLabelled(kind: Kind, o: Owned) {
    ValidValue(o.labels, OriginUuid(kind)) && CheckAnnotations(kind, o)
  }

  /** What a sweep decides about one listed object. */
  predicate Orphan(cfg: Config, crs: Crs, kind: OwnedKind, o: Owned) {
    if kind == REQUEST then
      || !cfg.requireApproval || !o.body.Request? || o.body.source.None?
      || o.body.source.value.id.name == "" || o.body.source.value.id.ns == ""
      || o.body.source.value.id !in crs
    else
      WellLabelled(OwnerKind(kind), o) && OriginOf(OwnerKind(kind), o) !in crs
  }

  predicate Doomed(cfg: Config, s: Store, ref: Ref) {
    && ref in s.owned && ref.kind != DELETION
    && Selected(s.owned[ref]) && Orphan(cfg, s.crs, ref.kind, s.owned[ref])
  }

  /** Deleted: gone, or marked when a Velero finalizer holds it. */
  predicate Removed(s: Store, t: Store, ref: Ref)
    requires ref in s.owned
  {
    if s.owned[ref].held then ref in t.owned && t.owned[ref] == s.owned[ref].(terminating := true, rv := t.owned[ref].rv)
    else ref !in t.owned
  }

  /** Of the objects dealt with the doomed ones are deleted; everything else is as it was. */
  ghost predicate After(cfg: Config, s: Store, t: Store, done: set<Ref>) {
    && t.crs == s.crs && t.issued == s.issued && t.clock == s.clock
    && t.namespaces == s.namespaces && t.secrets == s.secrets
    && (forall ref | ref in t.owned :: ref in s.owned)
    && (forall ref | ref in s.owned ::
          if ref in done && Doomed(cfg, s, ref) then Removed(s, t, ref)
          else ref in t.owned && t.owned[ref] == s.owned[ref])
  }

  /** The one outcome of a collection. */
  ghost predicate Swept(cfg: Config, s: Store, t: Store) {
    After(cfg, s, t, s.owned.Keys)
  }

  lemma OneMoreRemoved(cfg: Config, s: Store, t: Store, done: set<Ref>, ref: Ref)
    requires After(cfg, s, t, done) && ref !in done
    ensures Doomed(cfg, s, ref) ==> After(cfg, s, DoRemove(t, ref), done + {ref})
    ensures !Doomed(cfg, s, ref) ==> After(cfg, s, t, done + {ref})
  {
    hide Doomed, DoRemove;
    RemovedIsRemoved(t, ref);
    DoomedIsThere(cfg, s, ref);
  }

  lemma RemovedIsRemoved(t: Store, ref: Ref)
    ensures var u := DoRemove(t, ref);
            && u.crs == t.crs && u.issued == t.issued && u.clock == t.clock && u.namespaces == t.namespaces && u.secrets == t.secrets
            && (ref in t.owned ==> Removed(t, u, ref))
            && (ref !in t.owned ==> ref !in u.owned)
            && (forall r: Ref | r != ref :: (r in u.owned <==> r in t.owned) && (r in t.owned ==> u.owned[r] == t.owned[r]))
  {
  }

  lemma StillThere(cfg: Config, s: Store, t: Store, done: set<Ref>, ref: Ref)
    requires After(cfg, s, t, done) && ref in s.owned && ref !in done
    ensures ref in t.owned && t.owned[ref] == s.owned[ref] && (Doomed(cfg, t, ref) <==> Doomed(cfg, s, ref))
  {
  }

  /** Two collections that start from the same store end in the same one, versions aside. */
  lemma SweptIsUnique(cfg: Config, s: Store, t1: Store, t2: Store)
    requires Swept(cfg, s, t1) && Swept(cfg, s, t2)
    ensures SameButVersions(t1, t2)
  {
    hide Doomed;
    forall ref: Ref ensures ref in t1.owned <==> ref in t2.owned
                    ensures ref in t1.owned ==> t2.owned[ref].(rv := 0) == t1.owned[ref].(rv := 0)
    {
      assert ref in s.owned ==> (ref in s.owned.Keys);
    }
    assert t1.owned.Keys == t2.owned.Keys;
  }

  /** What the controllers label is doomed exactly when its origin is gone; the checkers'
      strict length bound is the only other way to be spared. */
  lemma WrittenIsDoomedIffOrphaned(cfg: Config, s: Store, ref: Ref, id: Id, uuid: string)
    requires ref in s.owned && ref.kind != DELETION && ref.kind != REQUEST && id.kind == OwnerKind(ref.kind)
    requires s.owned[ref].labels == OwnerLabels(id.kind, uuid) && s.owned[ref].annotations == OwnerAnnotations(id)
    ensures Doomed(cfg, s, ref) <==>
            && id !in s.crs
            && 0 < |uuid| < DNS1123SubdomainMaxLength && 0 < |id.ns| < DNS1123SubdomainMaxLength
            && 0 < |id.name| < DNS1123SubdomainMaxLength
  {
    WrittenMetadataChecks(id, uuid, s.owned[ref]);
  }

  /** The collector has no restore, location or secret to delete, and no backup either where
      Velero brings none back. */
  lemma NothingOwnedIsDoomed(cfg: Config, s: Store, ref: Ref)
    requires Inv(cfg, s) && !cfg.staleReads && ref in s.owned && Guarded(cfg.reimports, ref.kind)
    ensures !Doomed(cfg, s, ref)
  {
    hide CrsOk, NamesOk, RequestsOk, PlainOk, DeletionsOk, FrozenOk, VersionsOk, SyncLabelsOk, OwnUuids, IssuedNames, BackupsOk;
    if Claimed(ref, s.owned[ref]) {
      assert HasOwner(s.crs, ref, s.owned[ref]);
    }
  }

  // ---- The sweeps, one API call at a time ----

  /** items: listed and not yet looked at.  doomed: looked at, its origin not found, to be deleted. */
  datatype Sweep = Waiting | Working(items: seq<Ref>, doomed: Option<Ref>)
  datatype Gc = Gc(store: Store, sweeps: map<OwnedKind, Sweep>)

  predicate Collects(kind: OwnedKind) {
    kind != DELETION
  }

  function Sweeping(g: Gc, kind: OwnedKind): Sweep {
    if kind in g.sweeps then g.sweeps[kind] else Waiting
  }

  /** A list call returns the selected objects of a kind, each once, in some order. */
  ghost predicate IsList(s: Store, kind: OwnedKind, items: seq<Ref>) {
    && (forall ref :: ref in items <==> ref in s.owned && ref.kind == kind && Selected(s.owned[ref]))
    && (forall i, j | 0 <= i < j < |items| :: items[i] != items[j])
  }

  /** One API call of one sweep: list, get the origin of the next object, or delete. */
  ghost predicate Moves(cfg: Config, g: Gc, kind: OwnedKind, h: Gc) {
    && Collects(kind) && h.sweeps == g.sweeps[kind := Sweeping(h, kind)] && Sweeping(h, kind).Working?
    && var now := Sweeping(h, kind);
       match Sweeping(g, kind)
       case Waiting => h.store == g.store && IsList(g.store, kind, now.items) && now.doomed.None?
       case Working(items, Some(ref)) => h.store == DoRemove(g.store, ref) && now == Working(items, None)
       case Working(items, None) =>
         && h.store == g.store
         && if items == [] then now == Working([], None)
            else now == Working(items[1..], if Doomed(cfg, g.store, items[0]) then Some(items[0]) else None)
  }

  ghost predicate IsCollection(cfg: Config, s: Store, states: seq<Gc>, schedule: seq<OwnedKind>) {
    && |states| == |schedule| + 1 && states[0] == Gc(s, map[])
    && forall i | 0 <= i < |schedule| :: Moves(cfg, states[i], schedule[i], states[i + 1])
  }

  predicate Finished(g: Gc) {
    forall kind | Collects(kind) :: Sweeping(g, kind) == Working([], None)
  }

  /** The sweep of its kind has still to deal with this object. */
  predicate Ahead(g: Gc, ref: Ref) {
    match Sweeping(g, ref.kind)
    case Waiting => true
    case Working(items, doomed) => ref in items || doomed == Some(ref)
  }

  ghost predicate SweepOk(cfg: Config, s: Store, kind: OwnedKind, sweep: Sweep) {
    sweep.Working? ==>
      && (forall ref | ref in sweep.items :: ref in s.owned && ref.kind == kind && Some(ref) != sweep.doomed)
      && (forall i, j | 0 <= i < j < |sweep.items| :: sweep.items[i] != sweep.items[j])
      && (sweep.doomed.Some? ==> Doomed(cfg, s, sweep.doomed.value) && sweep.doomed.value.kind == kind)
  }

  function DoneSoFar(s: Store, g: Gc): set<Ref> {
    set ref | ref in s.owned && !Ahead(g, ref)
  }

  ghost predicate GcInv(cfg: Config, s: Store, g: Gc) {
    && After(cfg, s, g.store, DoneSoFar(s, g))
    && forall kind | kind in g.sweeps :: SweepOk(cfg, s, kind, g.sweeps[kind])
  }

  lemma MoveKeepsGcInv(cfg: Config, s: Store, g: Gc, kind: OwnedKind, h: Gc)
    requires GcInv(cfg, s, g) && Moves(cfg, g, kind, h)
    ensures GcInv(cfg, s, h)
  {
    hide After, Doomed, DoRemove;
    match Sweeping(g, kind)
    case Waiting =>
      ListingKeeps(cfg, s, g, kind, h);
    case Working(items, Some(ref)) =>
      OneMoreRemoved(cfg, s, g.store, DoneSoFar(s, g), ref);
      assert ref in s.owned by { assert SweepOk(cfg, s, kind, g.sweeps[kind]); DoomedIsThere(cfg, s, ref); }
      assert DoneSoFar(s, h) == DoneSoFar(s, g) + {ref};
    case Working(items, None) =>
      if items != [] {
        LookingKeeps(cfg, s, g, kind, h);
      } else {
        assert h == g;
      }
  }

  lemma LookingKeeps(cfg: Config, s: Store, g: Gc, kind: OwnedKind, h: Gc)
    requires GcInv(cfg, s, g) && Moves(cfg, g, kind, h)
    requires Sweeping(g, kind).Working? && Sweeping(g, kind).doomed.None? && Sweeping(g, kind).items != []
    ensures GcInv(cfg, s, h)
  {
    hide After, Doomed, DoRemove, Removed, IsList, Collects, SweepOk, Ahead, DoneSoFar;
    var ref := Sweeping(g, kind).items[0];
    assert SweepOk(cfg, s, kind, g.sweeps[kind]);
    FirstIsAhead(cfg, s, g, kind);
    StillThere(cfg, s, g.store, DoneSoFar(s, g), ref);
    OneMoreRemoved(cfg, s, g.store, DoneSoFar(s, g), ref);
    FirstIsLookedAt(cfg, s, g, kind, h, Doomed(cfg, s, ref));
    RestIsOk(cfg, s, kind, g.sweeps[kind], h.sweeps[kind]);
  }

  lemma FirstIsAhead(cfg: Config, s: Store, g: Gc, kind: OwnedKind)
    requires kind in g.sweeps && SweepOk(cfg, s, kind, g.sweeps[kind])
    requires g.sweeps[kind].Working? && g.sweeps[kind].items != []
    ensures var ref := g.sweeps[kind].items[0]; ref in s.owned && ref.kind == kind && ref !in DoneSoFar(s, g)
  {
    hide Doomed;
    assert g.sweeps[kind].items[0] in g.sweeps[kind].items;
  }

  /** What has been dealt with grows by the first of the list, unless that is still to be deleted. */
  lemma FirstIsLookedAt(cfg: Config, s: Store, g: Gc, kind: OwnedKind, h: Gc, doomed: bool)
    requires kind in g.sweeps && g.sweeps[kind].Working? && g.sweeps[kind].doomed.None? && g.sweeps[kind].items != []
    requires SweepOk(cfg, s, kind, g.sweeps[kind])
    requires var items := g.sweeps[kind].items;
             h.sweeps == g.sweeps[kind := Working(items[1..], if doomed then Some(items[0]) else None)]
    ensures DoneSoFar(s, h) == if doomed then DoneSoFar(s, g) else DoneSoFar(s, g) + {g.sweeps[kind].items[0]}
  {
    hide Doomed;
    var items := g.sweeps[kind].items;
    assert forall r :: r in items <==> r == items[0] || r in items[1..];
    assert items[0] in items;
  }

  lemma RestIsOk(cfg: Config, s: Store, kind: OwnedKind, was: Sweep, now: Sweep)
    requires SweepOk(cfg, s, kind, was) && was.Working? && was.doomed.None? && was.items != []
    requires now == Working(was.items[1..], if Doomed(cfg, s, was.items[0]) then Some(was.items[0]) else None)
    ensures SweepOk(cfg, s, kind, now)
  {
    hide Doomed;
    assert was.items[0] in was.items;
  }

  lemma DoomedIsThere(cfg: Config, s: Store, ref: Ref)
    ensures Doomed(cfg, s, ref) ==> ref in s.owned
  {
  }

  /** Only the doomed count as dealt with. */
  lemma SparedCountNot(cfg: Config, s: Store, t: Store, done: set<Ref>, more: set<Ref>)
    requires After(cfg, s, t, done) && done <= more
    requires forall ref | ref in more - done :: !Doomed(cfg, s, ref)
    ensures After(cfg, s, t, more)
  {
    hide Doomed, Removed;
  }

  lemma ListingKeeps(cfg: Config, s: Store, g: Gc, kind: OwnedKind, h: Gc)
    requires GcInv(cfg, s, g) && Moves(cfg, g, kind, h) && Sweeping(g, kind).Waiting?
    ensures GcInv(cfg, s, h)
  {
    hide After, Doomed, Selected;
    forall ref | ref in s.owned && ref.kind == kind
      ensures ref in g.store.owned && g.store.owned[ref] == s.owned[ref]
    {
      StillThere(cfg, s, g.store, DoneSoFar(s, g), ref);
    }
    var items := h.sweeps[kind].items;
    forall ref | ref in items ensures ref in s.owned {
      OnlyLoses(cfg, s, g.store, DoneSoFar(s, g), ref);
    }
    forall ref | ref in DoneSoFar(s, h) - DoneSoFar(s, g) ensures !Doomed(cfg, s, ref) {
      UnselectedIsSpared(cfg, s, ref);
    }
    SparedCountNot(cfg, s, g.store, DoneSoFar(s, g), DoneSoFar(s, h));
    assert SweepOk(cfg, s, kind, h.sweeps[kind]);
  }

  lemma OnlyLoses(cfg: Config, s: Store, t: Store, done: set<Ref>, ref: Ref)
    requires After(cfg, s, t, done) && ref in t.owned
    ensures ref in s.owned
  {
  }

  lemma UnselectedIsSpared(cfg: Config, s: Store, ref: Ref)
    requires ref in s.owned && !Selected(s.owned[ref])
    ensures !Doomed(cfg, s, ref)
  {
  }

  lemma {:induction false} CollectionKeepsGcInv(cfg: Config, s: Store, states: seq<Gc>, schedule: seq<OwnedKind>, i: nat)
    requires IsCollection(cfg, s, states, schedule) && i <= |schedule|
    ensures GcInv(cfg, s, states[i])
  {
    if i == 0 {
    } else {
      hide GcInv, Moves;
      CollectionKeepsGcInv(cfg, s, states, schedule, i - 1);
      MoveKeepsGcInv(cfg, s, states[i - 1], schedule[i - 1], states[i]);
    }
  }

  /** However the five sweeps interleave, at no moment has anything but doomed objects been
      deleted, and when all are finished precisely these have. */
  lemma CollectionIsExact(cfg: Config, s: Store, states: seq<Gc>, schedule: seq<OwnedKind>, i: nat)
    requires IsCollection(cfg, s, states, schedule) && i <= |schedule|
    ensures forall ref | ref in s.owned && !Doomed(cfg, s, ref) ::
              ref in states[i].store.owned && states[i].store.owned[ref] == s.owned[ref]
    ensures forall ref | ref in states[i].store.owned :: ref in s.owned
    ensures Finished(states[i]) ==> Swept(cfg, s, states[i].store)
  {
    hide Moves, Doomed, Removed;
    CollectionKeepsGcInv(cfg, s, states, schedule, i);
    var g := states[i];
    if Finished(g) {
      forall ref | ref in s.owned && ref !in DoneSoFar(s, g) ensures !Doomed(cfg, s, ref) {
        DeletionIsSpared(cfg, s, ref);
      }
      SparedCountNot(cfg, s, g.store, DoneSoFar(s, g), s.owned.Keys);
    }
  }

  // ---- What goes, by what is on the objects ----

  /** On the collector's lists: the two labels it selects by. */
  predicate Listed(o: Owned) {
    && OadpLabel in o.labels && o.labels[OadpLabel] == "True"
    && ManagedByLabel in o.labels && o.labels[ManagedByLabel] == "oadp-nac-controller"
  }

  predicate Fits(value: string) {
    0 < |value| < 253
  }

  /** Label and annotations lead to an origin. */
  predicate LeadsToOrigin(kind: Kind, o: Owned) {
    && OriginUuid(kind) in o.labels && Fits(o.labels[OriginUuid(kind)])
    && OriginNamespace(kind) in o.annotations && Fits(o.annotations[OriginNamespace(kind)])
    && OriginName(kind) in o.annotations && Fits(o.annotations[OriginName(kind)])
  }

  predicate IsGone(s: Store, t: Store, ref: Ref)
    requires ref in s.owned
  {
    if s.owned[ref].held then ref in t.owned && t.owned[ref].terminating else ref !in t.owned
  }

  predicate IsKept(s: Store, t: Store, ref: Ref)
    requires ref in s.owned
  {
    ref in t.owned && t.owned[ref] == s.owned[ref]
  }

  /** Requests after a collection: with approval off every listed one is gone; with approval on
      those are kept whose source names a location that is there, and no others. */
  ghost predicate RequestsCollected(cfg: Config, s: Store, t: Store) {
    forall ref | ref in s.owned && ref.kind == REQUEST ::
      var o := s.owned[ref];
      && (!Listed(o) ==> IsKept(s, t, ref))
      && (Listed(o) && !cfg.requireApproval ==> IsGone(s, t, ref))
      && (Listed(o) && cfg.requireApproval ==>
            if o.body.Request? && o.body.source.Some? && o.body.source.value.id.name != ""
               && o.body.source.value.id.ns != "" && o.body.source.value.id in s.crs
            then IsKept(s, t, ref) else IsGone(s, t, ref))
  }

  /** The objects of the other kinds: gone if and only if listed and leading to an origin that is
      not there; delete requests are never touched. */
  ghost predicate OrphansCollected(s: Store, t: Store) {
    forall ref | ref in s.owned && ref.kind != REQUEST ::
      var k, o := OwnerKind(ref.kind), s.owned[ref];
      if ref.kind != DELETION && Listed(o) && LeadsToOrigin(k, o)
         && Id(k, o.annotations[OriginNamespace(k)], o.annotations[OriginName(k)]) !in s.crs
      then IsGone(s, t, ref) else IsKept(s, t, ref)
  }

  lemma SweptIsCollected(cfg: Config, s: Store, t: Store)
    requires Swept(cfg, s, t)
    ensures RequestsCollected(cfg, s, t) && OrphansCollected(s, t)
  {
    hide RequestsCollected, OrphansCollected, Swept;
    RequestsSwept(cfg, s, t);
    OrphansSwept(cfg, s, t);
  }

  lemma RequestsSwept(cfg: Config, s: Store, t: Store)
    requires Swept(cfg, s, t)
    ensures RequestsCollected(cfg, s, t)
  {
    hide WellLabelled;
    forall ref | ref in s.owned ensures ref in s.owned.Keys {}
  }

  lemma OrphansSwept(cfg: Config, s: Store, t: Store)
    requires Swept(cfg, s, t)
    ensures OrphansCollected(s, t)
  {
    forall ref | ref in s.owned ensures ref in s.owned.Keys {}
  }

  /** However a collection interleaves, when it is finished it has taken, by what is on the
      objects, what it should and nothing else. */
  lemma CollectionTakesWhatItShould(cfg: Config, s: Store, states: seq<Gc>, schedule: seq<OwnedKind>)
    requires IsCollection(cfg, s, states, schedule) && Finished(states[|schedule|])
    ensures RequestsCollected(cfg, s, states[|schedule|].store) && OrphansCollected(s, states[|schedule|].store)
  {
    hide Swept, RequestsCollected, OrphansCollected;
    CollectionIsExact(cfg, s, states, schedule, |schedule|);
    SweptIsCollected(cfg, s, states[|schedule|].store);
  }

  lemma DeletionIsSpared(cfg: Config, s: Store, ref: Ref)
    requires !Collects(ref.kind)
    ensures !Doomed(cfg, s, ref)
  {
  }

  /** Confluence: all complete interleavings, whatever order the lists came in, end alike. */
  lemma CollectionsConverge(cfg: Config, s: Store, states1: seq<Gc>, schedule1: seq<OwnedKind>,
                            states2: seq<Gc>, schedule2: seq<OwnedKind>)
    requires IsCollection(cfg, s, states1, schedule1) && Finished(states1[|schedule1|])
    requires IsCollection(cfg, s, states2, schedule2) && Finished(states2[|schedule2|])
    ensures SameButVersions(states1[|schedule1|].store, states2[|schedule2|].store)
  {
    hide Moves, Finished, Swept, SameButVersions;
    CollectionIsExact(cfg, s, states1, schedule1, |schedule1|);
    CollectionIsExact(cfg, s, states2, schedule2, |schedule2|);
    SweptIsUnique(cfg, s, states1[|schedule1|].store, states2[|schedule2|].store);
  }

  // ---- A collection is a piece of a run ----

  /** Deleting a doomed object is a write the collector may make. */
  lemma DoomedMayGo(cfg: Config, s: Store, t: Store, done: set<Ref>, ref: Ref)
    requires Inv(cfg, s) && After(cfg, s, t, done) && Doomed(cfg, s, ref) && ref !in done
    ensures MayRemove(cfg, t, Collector, ref)
  {
    hide NamesOk, OwnershipOk, FrozenOk, VersionsOk;
    StillThere(cfg, s, t, done, ref);
    if ref.kind == REQUEST && s.owned[ref].body.Request? && s.owned[ref].body.source.Some? {
      var id := s.owned[ref].body.source.value.id;
      if id in s.crs {
        assert CrOk(s.rv, s.issued, id, s.crs[id]);
      }
    }
  }

  lemma {:induction false} CollectionKeepsInv(cfg: Config, s: Store, states: seq<Gc>, schedule: seq<OwnedKind>, i: nat)
    requires IsCollection(cfg, s, states, schedule) && i <= |schedule| && Inv(cfg, s)
    ensures Inv(cfg, states[i].store)
  {
    if i > 0 {
      hide Inv, GcInv, IsCollection, Moves;
      CollectionKeepsInv(cfg, s, states, schedule, i - 1);
      CollectionKeepsGcInv(cfg, s, states, schedule, i - 1);
      MoveKeepsInv(cfg, s, states[i - 1], schedule[i - 1], states[i]) by {
        MoveAt(cfg, s, states, schedule, i - 1);
      }
    }
  }

  lemma MoveAt(cfg: Config, s: Store, states: seq<Gc>, schedule: seq<OwnedKind>, i: nat)
    requires IsCollection(cfg, s, states, schedule) && i < |schedule|
    ensures Moves(cfg, states[i], schedule[i], states[i + 1])
  {
  }

  lemma MoveKeepsInv(cfg: Config, s: Store, g: Gc, kind: OwnedKind, h: Gc)
    requires Inv(cfg, s) && GcInv(cfg, s, g) && Moves(cfg, g, kind, h) && Inv(cfg, g.store)
    ensures Inv(cfg, h.store)
  {
    hide Inv, After, Doomed, DoRemove, MayRemove;
    if Sweeping(g, kind).Working? && Sweeping(g, kind).doomed.Some? {
      var ref := Sweeping(g, kind).doomed.value;
      assert SweepOk(cfg, s, kind, g.sweeps[kind]);
      DoomedMayGo(cfg, s, g.store, DoneSoFar(s, g), ref);
      RemoveKeepsInv(cfg, g.store, Collector, ref);
    }
  }

  // ---- The sweeps as loops ----

  class GarbageCollector {
    const cfg: Config
    var store: Store

    constructor (cfg: Config, store: Store)
      ensures this.cfg == cfg && this.store == store
    {
      this.cfg, this.store := cfg, store;
    }

    /** All selected objects of a kind, in some order. */
    method List(kind: OwnedKind) returns (items: seq<(Ref, Owned)>)
      ensures forall e | e in items :: e.0 in store.owned && e.0.kind == kind && store.owned[e.0] == e.1 && Selected(e.1)
      ensures forall ref | ref in store.owned && ref.kind == kind && Selected(store.owned[ref]) :: (ref, store.owned[ref]) in items
      ensures forall i, j | 0 <= i < j < |items| :: items[i].0 != items[j].0
    {
      var rest := set ref | ref in store.owned && ref.kind == kind && Selected(store.owned[ref]);
      ghost var all := rest;
      items := [];
      while rest != {}
        invariant rest <= all
        invariant forall e | e in items :: e.0 in all - rest && store.owned[e.0] == e.1
        invariant forall ref | ref in all - rest :: (ref, store.owned[ref]) in items
        invariant forall i, j | 0 <= i < j < |items| :: items[i].0 != items[j].0
        decreases rest
      {
        var ref :| ref in rest;
        items := items + [(ref, store.owned[ref])];
        rest := rest - {ref};
      }
    }

    /** The sweep over secrets, locations, backups or restores. */
    method SweepOrphans(kind: OwnedKind, ghost s: Store, ghost done: set<Ref>)
      requires kind != REQUEST && kind != DELETION
      requires After(cfg, s, store, done) && forall ref | ref in done :: ref.kind != kind
      modifies this`store
      ensures After(cfg, s, store, done + OfKind(s, kind))
    {
      hide After, Doomed, Selected, DoRemove;
      var items := List(kind);
      ghost var seen: set<Ref> := {};
      assert done + seen == done;
      for i := 0 to |items|
        invariant seen == set j | 0 <= j < i :: items[j].0
        invariant After(cfg, s, store, done + seen)
      {
        var (ref, o) := items[i];
        assert ref !in seen;
        LoopStep(cfg, s, old(store), store, done, seen, ref, o);
        seen := seen + {ref};
        if WellLabelled(OwnerKind(kind), o) {
          if OriginOf(OwnerKind(kind), o) !in store.crs {
            store := DoRemove(store, ref);
          }
        }
      }
      AllListed(cfg, s, old(store), store, done, seen, kind, items);
    }

    /** The sweep over requests. */
    method SweepRequests(ghost s: Store, ghost done: set<Ref>)
      requires After(cfg, s, store, done) && forall ref | ref in done :: ref.kind != REQUEST
      modifies this`store
      ensures After(cfg, s, store, done + OfKind(s, REQUEST))
    {
      hide After, Doomed, Selected, DoRemove;
      var items := List(REQUEST);
      ghost var seen: set<Ref> := {};
      assert done + seen == done;
      for i := 0 to |items|
        invariant seen == set j | 0 <= j < i :: items[j].0
        invariant After(cfg, s, store, done + seen)
      {
        var (ref, o) := items[i];
        assert ref !in seen;
        LoopStep(cfg, s, old(store), store, done, seen, ref, o);
        seen := seen + {ref};
        var shouldDelete := false;
        if !cfg.requireApproval {
          shouldDelete := true;
        } else if !o.body.Request? || o.body.source.None? || o.body.source.value.id.name == "" || o.body.source.value.id.ns == "" {
          shouldDelete := true;
        } else {
          if o.body.source.value.id in store.crs {
            continue;
          }
          shouldDelete := true;
        }
        if shouldDelete {
          store := DoRemove(store, ref);
        }
      }
      AllListed(cfg, s, old(store), store, done, seen, REQUEST, items);
    }

    /** One sweep after the other: one of the interleavings. */
    method Reconcile()
      modifies this`store
      ensures Swept(cfg, old(store), store)
      ensures RequestsCollected(cfg, old(store), store) && OrphansCollected(old(store), store)
    {
      hide After, RequestsCollected, OrphansCollected;
      ghost var s := store;
      NothingDone(cfg, s);
      SweepOrphans(SECRET, s, {});
      SweepOrphans(BSL, s, {} + OfKind(s, SECRET));
      SweepOrphans(BACKUP, s, {} + OfKind(s, SECRET) + OfKind(s, BSL));
      SweepOrphans(RESTORE, s, {} + OfKind(s, SECRET) + OfKind(s, BSL) + OfKind(s, BACKUP));
      SweepRequests(s, {} + OfKind(s, SECRET) + OfKind(s, BSL) + OfKind(s, BACKUP) + OfKind(s, RESTORE));
      ghost var all := {} + OfKind(s, SECRET) + OfKind(s, BSL) + OfKind(s, BACKUP) + OfKind(s, RESTORE) + OfKind(s, REQUEST);
      forall ref | ref in s.owned.Keys - all ensures !Doomed(cfg, s, ref) {
        DeletionIsSpared(cfg, s, ref);
      }
      SparedCountNot(cfg, s, store, all, s.owned.Keys);
      SweptIsCollected(cfg, s, store);
    }
  }

  lemma NothingDone(cfg: Config, s: Store)
    ensures After(cfg, s, s, {})
  {
  }

  lemma LoopStep(cfg: Config, s: Store, was: Store, t: Store, done: set<Ref>, seen: set<Ref>, ref: Ref, o: Owned)
    requires After(cfg, s, was, done) && After(cfg, s, t, done + seen)
    requires ref in was.owned && was.owned[ref] == o && Selected(o) && ref !in done + seen && ref.kind != DELETION
    ensures Doomed(cfg, s, ref) <==> Orphan(cfg, t.crs, ref.kind, o)
    ensures Doomed(cfg, s, ref) ==> After(cfg, s, DoRemove(t, ref), done + (seen + {ref}))
    ensures !Doomed(cfg, s, ref) ==> After(cfg, s, t, done + (seen + {ref}))
  {
    hide Orphan, Selected, WellLabelled, Removed;
    assert done + (seen + {ref}) == done + seen + {ref};
    OnlyLoses(cfg, s, was, done, ref);
    StillThere(cfg, s, was, done, ref);
    OneMoreRemoved(cfg, s, t, done + seen, ref);
  }

  lemma AllListed(cfg: Config, s: Store, was: Store, t: Store, done: set<Ref>, seen: set<Ref>, kind: OwnedKind,
                  items: seq<(Ref, Owned)>)
    requires After(cfg, s, was, done) && After(cfg, s, t, done + seen) && forall ref | ref in done :: ref.kind != kind
    requires forall e | e in items :: e.0 in was.owned && e.0.kind == kind
    requires forall ref | ref in was.owned && ref.kind == kind && Selected(was.owned[ref]) :: (ref, was.owned[ref]) in items
    requires seen == set j | 0 <= j < |items| :: items[j].0
    ensures After(cfg, s, t, done + OfKind(s, kind))
  {
    hide After, Doomed, Selected;
    forall ref | ref in seen ensures ref in OfKind(s, kind) {
      OnlyLoses(cfg, s, was, done, ref);
    }
    forall ref | ref in OfKind(s, kind) - seen ensures !Doomed(cfg, s, ref) {
      StillThere(cfg, s, was, done, ref);
      UnselectedIsSpared(cfg, s, ref);
    }
    SparedCountNot(cfg, s, t, done + seen, done + OfKind(s, kind));
  }

  function OfKind(s: Store, kind: OwnedKind): set<Ref> {
    set ref | ref in s.owned && ref.kind == kind
  }
}
