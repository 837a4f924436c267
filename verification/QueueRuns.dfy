/**
 The queue position cached in the status of each backup, and how predicates, handlers and
 the work queue keep it in step with the Velero backups.
 */
module QueueRuns {
  import opened Objects
  import opened Cluster
  import opened Protocol
  import opened Queue

  // ---- Events, predicates and handlers ----

  datatype Event = Update(was: Owned, now: Owned) | Deleted(gone: Owned)

  function AnnotationOr(o: Owned, key: AnnotationKey): string {
    if key in o.annotations then o.annotations[key] else ""
  }

  /** The NonAdminBackup an event leads to; empty strings when the annotations are missing. */
  function Origin(o: Owned): Id {
    Id(NAB, AnnotationOr(o, OriginNamespace(NAB)), AnnotationOr(o, OriginName(NAB)))
  }

  predicate Managed(o: Owned) {
    HasValue(o.labels, ManagedByLabel, ManagedByLabelValue)
  }

  /** VeleroBackupQueuePredicate.Update: the first completion of any backup. */
  predicate NewlyCompleted(e: Event) {
    e.Update? && e.was.body.Backup? && e.now.body.Backup? && !e.was.body.completed && e.now.body.completed
  }

  /** CompositeBackupPredicate, for backups: either filter lets an update through to both handlers;
      a deletion gets through with the metadata of the controllers; creations never do. */
  predicate Accepted(e: Event) {
    match e
    case Update(_, now) => NewlyCompleted(e) || CheckMetadata(NAB, now)
    case Deleted(gone) => CheckMetadata(NAB, gone)
  }

  /** VeleroBackupHandler: the object the event's own backup leads to. */
  function Target(e: Event): Id {
    match e
    case Update(_, now) => Origin(now)
    case Deleted(gone) => Origin(gone)
  }

  /** VeleroBackupQueueHandler: every other NonAdminBackup with an active backup; none on a deletion. */
  function FanOut(owned: Objs, e: Event): set<Id> {
    set ref | ref in owned && e.Update? && ref.kind == BACKUP && Active(BACKUP, owned[ref]) && Managed(owned[ref])
              && Origin(owned[ref]) != Target(e) :: Origin(owned[ref])
  }

  /** VeleroBackupQueueHandler.Update */
  method QueueHandlerUpdate(items: seq<(Ref, Owned)>, e: Event, queue: set<Id>, ghost owned: Objs) returns (after: set<Id>)
    requires Lists(owned, BACKUP, items) && e.Update?
    ensures after == queue + FanOut(owned, e)
    ensures forall id :: id in after <==>
              || id in queue
              || exists ref :: ref in owned && ref.kind == BACKUP && Active(BACKUP, owned[ref]) && Managed(owned[ref])
                               && Origin(owned[ref]) == id && id != Origin(e.now)
  {
    var backups: seq<Owned> := [];
    for i := 0 to |items|
      invariant forall o :: o in backups <==>
                  exists j :: 0 <= j < i && items[j].1 == o && Active(BACKUP, o) && Managed(o)
    {
      var backup := items[i].1;
      if Managed(backup) && Active(BACKUP, backup) {
        backups := backups + [backup];
      }
    }
    after := queue;
    ghost var added: set<Id> := {};
    for i := 0 to |backups|
      invariant after == queue + added
      invariant forall id :: id in added <==> exists j :: 0 <= j < i && Origin(backups[j]) == id && id != Origin(e.now)
    {
      var origin := Origin(backups[i]);
      if origin != Origin(e.now) {
        after := after + {origin};
        added := added + {origin};
      }
    }
    forall id ensures id in added <==> id in FanOut(owned, e) {
      if id in added {
        var j :| 0 <= j < |backups| && Origin(backups[j]) == id && id != Origin(e.now);
        assert backups[j] in backups;
        var k :| 0 <= k < |items| && items[k].1 == backups[j] && Active(BACKUP, backups[j]) && Managed(backups[j]);
        assert items[k] in items;
      }
      if id in FanOut(owned, e) {
        var ref :| ref in owned && ref.kind == BACKUP && Active(BACKUP, owned[ref]) && Managed(owned[ref])
                   && Origin(owned[ref]) != Origin(e.now) && Origin(owned[ref]) == id;
        assert (ref, owned[ref]) in items;
        assert owned[ref] in backups;
      }
    }
  }

  // ---- The system ----

  /** How far the reconcile of one object has got: it has its Velero backup, or the position. */
  datatype Work = Started | Found(backup: Owned) | Computed(position: nat)

  datatype System = System(
    owned: Objs, stored: map<Id, nat>, pending: multiset<Event>, queue: set<Id>, working: map<Id, Work>)

  datatype Action =
    | ForeignCreate(ref: Ref, o: Owned)
    | OwnCreate(id: Id, ref: Ref, o: Owned)
    | Change(ref: Ref, o: Owned)
    | Import(ref: Ref, o: Owned)
    | Vanish(ref: Ref)
    | Deliver(e: Event)
    | Request(id: Id)
    | Begin(id: Id)
    | Find(id: Id, ref: Ref)
    | Compute(id: Id)
    | Save(id: Id)
    | GiveUp(id: Id, again: bool)

  predicate Ours(o: Owned, id: Id) {
    Managed(o) && Origin(o) == id
  }

  predicate New(owned: Objs, ref: Ref, o: Owned) {
    && ref.kind == BACKUP && ref !in owned && o.body.Backup? && !o.body.completed && o.body.created > 0
    && forall r | r in owned && Timed(BACKUP, owned[r]) :: owned[r].body.created <= o.body.created
  }

  /** No other object with an active backup comes after this backup in the queue. */
  ghost predicate NobodyBehind(reaching: set<Id>, owned: Objs, ref: Ref)
    requires ref in owned
  {
    Active(BACKUP, owned[ref]) ==>
      forall id, r | id in reaching && r in owned && r != ref && Active(BACKUP, owned[r]) && Ours(owned[r], id) ::
        owned[r].body.created <= owned[ref].body.created
  }

  function Gone(q: System, ref: Ref): System
    requires ref in q.owned
  {
    q.(owned := q.owned - {ref}, pending := q.pending + multiset{Deleted(q.owned[ref])})
  }

  function Delivered(q: System, e: Event): System {
    q.(pending := q.pending - multiset{e},
       queue := if Accepted(e) then q.queue + {Target(e)} + FanOut(q.owned, e) else q.queue)
  }

  /** Velero brings back a complete backup; a managed one only where no other has its origin. */
  predicate Imports(owned: Objs, ref: Ref, o: Owned) {
    && ref.kind == BACKUP && ref !in owned && o.body.Backup? && o.body.completed && o.body.created > 0
    && (Managed(o) ==> forall r | r in owned && Managed(owned[r]) :: Origin(owned[r]) != Origin(o))
  }

  /** reaching: the objects whose reconciles get as far as the queue step, or fail and are run again. */
  ghost predicate Can(reaching: set<Id>, q: System, a: Action) {
    match a
    case ForeignCreate(ref, o) => New(q.owned, ref, o) && !Managed(o)
    case OwnCreate(id, ref, o) =>
      && New(q.owned, ref, o) && Ours(o, id) && id in q.working && q.working[id] == Started
      && forall r | r in q.owned :: !Ours(q.owned[r], id)
    case Change(ref, o) =>
      && ref in q.owned && ref.kind == BACKUP && KeepsMetadata(q.owned[ref], o) && o.body.Backup?
      && q.owned[ref].body.Backup? && o.body.created == q.owned[ref].body.created
      && (q.owned[ref].body.completed ==> o.body.completed)
    case Import(ref, o) => Imports(q.owned, ref, o)
    case Vanish(ref) => ref in q.owned && ref.kind == BACKUP && NobodyBehind(reaching, q.owned, ref)
    case Deliver(e) => e in q.pending
    case Request(id) => true
    case Begin(id) => id in q.queue && id !in q.working
    case Find(id, ref) => id in q.working && q.working[id] == Started && ref in q.owned && Ours(q.owned[ref], id)
    case Compute(id) => id in q.working && q.working[id].Found?
    case Save(id) => id in q.working && q.working[id].Computed?
    case GiveUp(id, again) => id in q.working && (again || id !in reaching)
  }

  ghost function Do(reaching: set<Id>, q: System, a: Action): System
    requires Can(reaching, q, a)
  {
    match a
    case ForeignCreate(ref, o) => q.(owned := q.owned[ref := o])
    case OwnCreate(id, ref, o) => q.(owned := q.owned[ref := o], working := q.working[id := Found(o)])
    case Change(ref, o) =>
      q.(owned := q.owned[ref := o], pending := q.pending + multiset{Update(q.owned[ref], o)})
    case Import(ref, o) => q.(owned := q.owned[ref := o])
    case Vanish(ref) => Gone(q, ref)
    case Deliver(e) => Delivered(q, e)
    case Request(id) => q.(queue := q.queue + {id})
    case Begin(id) => q.(queue := q.queue - {id}, working := q.working[id := Started])
    case Find(id, ref) => q.(working := q.working[id := Found(q.owned[ref])])
    case Compute(id) => q.(working := q.working[id := Computed(Position(q.owned, BACKUP, q.working[id].backup))])
    case Save(id) => q.(stored := q.stored[id := q.working[id].position], working := q.working - {id})
    case GiveUp(id, again) => q.(queue := if again then q.queue + {id} else q.queue, working := q.working - {id})
  }

  // ---- Coherence ----

  /** A run of this reconcile from here on, if there is one, ends with the current position. */
  predicate OnTrack(q: System, id: Id, position: nat, o: Owned) {
    if id in q.working then
      match q.working[id]
      case Started => true
      case Found(b) => b.body.Backup? && o.body.Backup? && !b.body.completed && b.body.created == o.body.created
      case Computed(p) => p == position
    else id in q.stored && q.stored[id] == position
  }

  ghost predicate Owed(q: System, id: Id) {
    id in q.queue || exists e :: e in q.pending && NewlyCompleted(e)
  }

  ghost predicate Coherent(reaching: set<Id>, q: System) {
    forall id, ref | id in reaching && ref in q.owned && Active(BACKUP, q.owned[ref]) && Ours(q.owned[ref], id) ::
      Owed(q, id) || OnTrack(q, id, Position(q.owned, BACKUP, q.owned[ref]), q.owned[ref])
  }

  ghost predicate Sound(q: System) {
    SoundBackups(q.owned) && SoundWork(q)
  }

  ghost predicate SoundBackups(owned: Objs) {
    && (forall ref | ref in owned && Managed(owned[ref]) ::
          ref.kind == BACKUP && owned[ref].body.Backup? && owned[ref].body.created > 0)
    && (forall a, b | a in owned && b in owned && Managed(owned[a]) && Managed(owned[b])
                      && Origin(owned[a]) == Origin(owned[b]) :: a == b)
  }

  /** A reconcile that has its backup has it as it is, as long as that is active. */
  ghost predicate SoundWork(q: System) {
    forall id, ref | id in q.working && q.working[id].Found? && ref in q.owned && Ours(q.owned[ref], id)
                         && Active(BACKUP, q.owned[ref]) ::
          && q.working[id].backup.body.Backup? && !q.working[id].backup.body.completed
          && q.working[id].backup.body.created == q.owned[ref].body.created
  }

  lemma CreationKeepsPositions(owned: Objs, ref: Ref, o: Owned, r: Ref)
    requires New(owned, ref, o) && r in owned && Active(BACKUP, owned[r])
    ensures Position(owned[ref := o], BACKUP, owned[r]) == Position(owned, BACKUP, owned[r])
  {
    var c := owned[r].body.created;
    assert Earlier(owned[ref := o], BACKUP, c) == Earlier(owned, BACKUP, c);
  }

  lemma ChangeKeepsPositions(owned: Objs, ref: Ref, o: Owned, b: Owned)
    requires ref in owned && ref.kind == BACKUP && owned[ref].body.Backup? && o.body.Backup?
    requires o.body.created == owned[ref].body.created && o.body.completed == owned[ref].body.completed
    ensures Position(owned[ref := o], BACKUP, b) == Position(owned, BACKUP, b)
  {
    if Active(BACKUP, b) {
      assert Earlier(owned[ref := o], BACKUP, b.body.created) == Earlier(owned, BACKUP, b.body.created);
    }
  }

  lemma SoundKept(reaching: set<Id>, q: System, a: Action)
    requires Sound(q) && Can(reaching, q, a)
    ensures Sound(Do(reaching, q, a))
  {
    hide Position, FanOut, Accepted, ValidLabel, NobodyBehind, CheckMetadata, NewlyCompleted, SoundWork;
    SoundWorkKept(reaching, q, a);
  }

  lemma SoundWorkKept(reaching: set<Id>, q: System, a: Action)
    requires Sound(q) && Can(reaching, q, a)
    ensures SoundWork(Do(reaching, q, a))
  {
    hide Position, FanOut, Accepted, ValidLabel, NobodyBehind, CheckMetadata, NewlyCompleted;
  }

  lemma CoherentKept(reaching: set<Id>, q: System, a: Action)
    requires Sound(q) && Coherent(reaching, q) && Can(reaching, q, a)
    ensures Coherent(reaching, Do(reaching, q, a))
  {
    hide Position, Coherent, FanOut, Sound, New;
    var t := Do(reaching, q, a);
    forall id, ref | id in reaching && ref in t.owned && Active(BACKUP, t.owned[ref]) && Ours(t.owned[ref], id)
      ensures Owed(t, id) || OnTrack(t, id, Position(t.owned, BACKUP, t.owned[ref]), t.owned[ref])
    {
      match a
      case ForeignCreate(r, o) => CreationKeepsOne(reaching, q, a, id, ref);
      case OwnCreate(i, r, o) => CreationKeepsOne(reaching, q, a, id, ref);
      case Import(r, o) => ImportKeepsOne(reaching, q, a, id, ref);
      case Change(r, o) => ChangeKeepsOne(reaching, q, a, id, ref);
      case Vanish(r) => DeletionKeepsOne(reaching, q, r, id, ref);
      case Deliver(e) => DeliveryKeepsOne(reaching, q, a, id, ref);
      case _ => WorkKeepsOne(reaching, q, a, id, ref);
    }
    assert Coherent(reaching, t) by { CoherentBy(reaching, t); }
  }

  lemma CoherentBy(reaching: set<Id>, q: System)
    requires forall id, ref | id in reaching && ref in q.owned && Active(BACKUP, q.owned[ref]) && Ours(q.owned[ref], id) ::
               Owed(q, id) || OnTrack(q, id, Position(q.owned, BACKUP, q.owned[ref]), q.owned[ref])
    ensures Coherent(reaching, q)
  {
    hide Position, Owed, OnTrack;
  }

  lemma CoherentOne(reaching: set<Id>, q: System, id: Id, ref: Ref)
    requires Coherent(reaching, q) && id in reaching && ref in q.owned && Active(BACKUP, q.owned[ref]) && Ours(q.owned[ref], id)
    ensures Owed(q, id) || OnTrack(q, id, Position(q.owned, BACKUP, q.owned[ref]), q.owned[ref])
  {
  }

  lemma CreationKeepsOne(reaching: set<Id>, q: System, a: Action, id: Id, ref: Ref)
    requires Sound(q) && Coherent(reaching, q) && Can(reaching, q, a) && (a.ForeignCreate? || a.OwnCreate?)
    requires var t := Do(reaching, q, a);
             id in reaching && ref in t.owned && Active(BACKUP, t.owned[ref]) && Ours(t.owned[ref], id)
    ensures var t := Do(reaching, q, a);
            Owed(t, id) || OnTrack(t, id, Position(t.owned, BACKUP, t.owned[ref]), t.owned[ref])
  {
    hide Position, Coherent;
    var t := Do(reaching, q, a);
    if ref != a.ref {
      CreationKeepsPositions(q.owned, a.ref, a.o, ref);
      CoherentOne(reaching, q, id, ref);
    }
  }

  lemma ImportKeepsOne(reaching: set<Id>, q: System, a: Action, id: Id, ref: Ref)
    requires Coherent(reaching, q) && Can(reaching, q, a) && a.Import?
    requires var t := Do(reaching, q, a);
             id in reaching && ref in t.owned && Active(BACKUP, t.owned[ref]) && Ours(t.owned[ref], id)
    ensures var t := Do(reaching, q, a);
            Owed(t, id) || OnTrack(t, id, Position(t.owned, BACKUP, t.owned[ref]), t.owned[ref])
  {
    hide Coherent;
    CoherentOne(reaching, q, id, ref);
    var c := q.owned[ref].body.created;
    assert Earlier(q.owned[a.ref := a.o], BACKUP, c) == Earlier(q.owned, BACKUP, c);
  }

  lemma ChangeKeepsOne(reaching: set<Id>, q: System, a: Action, id: Id, ref: Ref)
    requires Sound(q) && Coherent(reaching, q) && Can(reaching, q, a) && a.Change?
    requires var t := Do(reaching, q, a);
             id in reaching && ref in t.owned && Active(BACKUP, t.owned[ref]) && Ours(t.owned[ref], id)
    ensures var t := Do(reaching, q, a);
            Owed(t, id) || OnTrack(t, id, Position(t.owned, BACKUP, t.owned[ref]), t.owned[ref])
  {
    hide Coherent, Sound, Earlier;
    var t := Do(reaching, q, a);
    var e := Update(q.owned[a.ref], a.o);
    assert e in t.pending;
    if !NewlyCompleted(e) {
      ChangeKeepsPositions(q.owned, a.ref, a.o, q.owned[ref]);
      CoherentOne(reaching, q, id, ref);
      forall x | x in q.pending ensures x in t.pending {}
    }
  }

  lemma DeletionKeepsPositions(owned: Objs, ref: Ref, r: Ref)
    requires ref in owned && r in owned && r != ref && Active(BACKUP, owned[r])
    requires Active(BACKUP, owned[ref]) ==> owned[r].body.created <= owned[ref].body.created
    ensures Position(owned - {ref}, BACKUP, owned[r]) == Position(owned, BACKUP, owned[r])
  {
    var c := owned[r].body.created;
    assert Earlier(owned - {ref}, BACKUP, c) == Earlier(owned, BACKUP, c);
  }

  lemma DeletionKeepsOne(reaching: set<Id>, q: System, gone: Ref, id: Id, ref: Ref)
    requires Coherent(reaching, q) && gone in q.owned && gone.kind == BACKUP && NobodyBehind(reaching, q.owned, gone)
    requires id in reaching && ref in q.owned && ref != gone && Active(BACKUP, q.owned[ref]) && Ours(q.owned[ref], id)
    ensures var t := Gone(q, gone);
            Owed(t, id) || OnTrack(t, id, Position(t.owned, BACKUP, t.owned[ref]), t.owned[ref])
  {
    hide Position, Coherent;
    DeletionKeepsPositions(q.owned, gone, ref);
    CoherentOne(reaching, q, id, ref);
    forall e | e in q.pending ensures e in Gone(q, gone).pending {}
  }

  /** Deleting a backup with work drained leaves every stored position current if and only if the
      backup was complete already or nobody was behind it, and the event of the deletion changes
      nothing about that: nothing tells those behind it. */
  lemma DeletionStrandsIff(reaching: set<Id>, q: System, gone: Ref)
    requires Sound(q) && Coherent(reaching, q) && Quiescent(q) && gone in q.owned && gone.kind == BACKUP
    ensures Coherent(reaching, Gone(q, gone)) <==> NobodyBehind(reaching, q.owned, gone)
    ensures Coherent(reaching, Delivered(Gone(q, gone), Deleted(q.owned[gone]))) <==> NobodyBehind(reaching, q.owned, gone)
  {
    hide Position, Coherent, Sound, Delivered;
    var t := Gone(q, gone);
    var e := Deleted(q.owned[gone]);
    if NobodyBehind(reaching, q.owned, gone) {
      SoundKept(reaching, q, Vanish(gone));
      CoherentKept(reaching, q, Vanish(gone));
      CoherentKept(reaching, t, Deliver(e));
    } else {
      var id, r :| id in reaching && r in q.owned && r != gone && Active(BACKUP, q.owned[r]) && Ours(q.owned[r], id)
                   && q.owned[r].body.created > q.owned[gone].body.created;
      StrandedOne(reaching, q, gone, id, r);
    }
  }

  lemma StrandedOne(reaching: set<Id>, q: System, gone: Ref, id: Id, r: Ref)
    requires Sound(q) && Coherent(reaching, q) && Quiescent(q) && gone in q.owned && gone.kind == BACKUP
    requires id in reaching && r in q.owned && r != gone && Active(BACKUP, q.owned[r]) && Ours(q.owned[r], id)
    requires Active(BACKUP, q.owned[gone]) && q.owned[r].body.created > q.owned[gone].body.created
    ensures !Coherent(reaching, Gone(q, gone)) && !Coherent(reaching, Delivered(Gone(q, gone), Deleted(q.owned[gone])))
  {
    hide Coherent;
    var t := Gone(q, gone);
    var u := Delivered(t, Deleted(q.owned[gone]));
    CoherentOne(reaching, q, id, r);
    var c := q.owned[r].body.created;
    assert Earlier(q.owned, BACKUP, c) == Earlier(t.owned, BACKUP, c) + {gone};
    assert r.kind == BACKUP && Managed(q.owned[r]);
    assert !Owed(t, id) && !OnTrack(t, id, Position(t.owned, BACKUP, t.owned[r]), t.owned[r]);
    SameOriginSameBackup(q, gone, r, id);
    assert !Owed(u, id) && !OnTrack(u, id, Position(u.owned, BACKUP, u.owned[r]), u.owned[r]);
    StaleIsIncoherent(reaching, t, id, r);
    StaleIsIncoherent(reaching, u, id, r);
  }

  lemma StaleIsIncoherent(reaching: set<Id>, q: System, id: Id, ref: Ref)
    requires id in reaching && ref in q.owned && Active(BACKUP, q.owned[ref]) && Ours(q.owned[ref], id)
    requires !Owed(q, id) && !OnTrack(q, id, Position(q.owned, BACKUP, q.owned[ref]), q.owned[ref])
    ensures !Coherent(reaching, q)
  {
  }

  lemma SameOriginSameBackup(q: System, gone: Ref, r: Ref, id: Id)
    requires Sound(q) && gone in q.owned && r in q.owned && r != gone && Ours(q.owned[r], id)
    ensures CheckMetadata(NAB, q.owned[gone]) ==> Origin(q.owned[gone]) != id
  {
  }

  /** A delivered completion reaches every object with an active backup. */
  lemma DeliveryKeepsOne(reaching: set<Id>, q: System, a: Action, id: Id, ref: Ref)
    requires Sound(q) && Coherent(reaching, q) && Can(reaching, q, a) && a.Deliver?
    requires id in reaching && ref in q.owned && Active(BACKUP, q.owned[ref]) && Ours(q.owned[ref], id)
    ensures var t := Do(reaching, q, a);
            Owed(t, id) || OnTrack(t, id, Position(t.owned, BACKUP, t.owned[ref]), t.owned[ref])
  {
    hide Position, Coherent;
    var t := Do(reaching, q, a);
    if NewlyCompleted(a.e) {
      assert ref.kind == BACKUP;
      assert id == Target(a.e) || id in FanOut(q.owned, a.e);
    } else {
      CoherentOne(reaching, q, id, ref);
      forall x | x in q.pending && NewlyCompleted(x) ensures x in t.pending {}
    }
  }

  /** What a delivered update puts in the queue, and nothing else: when the backup has just completed,
      or bears the metadata of the controllers, its own object and, because both handlers get the
      event, every other object with an active backup. */
  lemma UpdateEnqueuesExactly(q: System, e: Event, id: Id)
    requires e.Update?
    ensures id in Delivered(q, e).queue <==>
              || id in q.queue
              || (((e.was.body.Backup? && e.now.body.Backup? && !e.was.body.completed && e.now.body.completed)
                   || CheckMetadata(NAB, e.now))
                  && (id == Origin(e.now)
                      || exists ref :: ref in q.owned && ref.kind == BACKUP && q.owned[ref].body.Backup?
                                       && !q.owned[ref].body.completed && Managed(q.owned[ref])
                                       && Origin(q.owned[ref]) == id && Origin(q.owned[ref]) != Origin(e.now)))
  {
    hide CheckMetadata;
  }

  /** So every change of a backup the controllers wrote, a completion or not, and its deletion, bring
      its own object to the queue. */
  lemma ChangeReachesItsObject(q: System, e: Event, id: Id, uuid: string)
    requires id.kind == NAB && 0 < |uuid| < 253 && 0 < |id.ns| < 253 && 0 < |id.name| < 253
    requires var o := if e.Update? then e.now else e.gone;
             o.labels == OwnerLabels(NAB, uuid) && o.annotations == OwnerAnnotations(id)
    ensures id in Delivered(q, e).queue
  {
    hide FanOut;
    WrittenMetadataChecks(id, uuid, if e.Update? then e.now else e.gone);
  }

  lemma WorkKeepsOne(reaching: set<Id>, q: System, a: Action, id: Id, ref: Ref)
    requires Sound(q) && Coherent(reaching, q) && Can(reaching, q, a)
    requires !a.ForeignCreate? && !a.OwnCreate? && !a.Import? && !a.Change? && !a.Vanish? && !a.Deliver?
    requires id in reaching && ref in q.owned && Active(BACKUP, q.owned[ref]) && Ours(q.owned[ref], id)
    ensures var t := Do(reaching, q, a);
            Owed(t, id) || OnTrack(t, id, Position(t.owned, BACKUP, t.owned[ref]), t.owned[ref])
  {
    hide Coherent, Earlier;
    CoherentOne(reaching, q, id, ref);
    if a.Find? && a.id == id {
      assert a.ref == ref;
    }
  }

  // ---- Runs ----

  ghost predicate Quiescent(q: System) {
    q.pending == multiset{} && q.queue == {} && q.working == map[]
  }

  ghost predicate IsQueueRun(reaching: set<Id>, states: seq<System>, actions: seq<Action>) {
    && |states| == |actions| + 1
    && (forall ref | ref in states[0].owned :: !Managed(states[0].owned[ref])) && states[0].working == map[]
    && forall i | 0 <= i < |actions| :: Can(reaching, states[i], actions[i]) && states[i + 1] == Do(reaching, states[i], actions[i])
  }

  lemma {:induction false} RunIsCoherent(reaching: set<Id>, states: seq<System>, actions: seq<Action>, i: nat)
    requires IsQueueRun(reaching, states, actions) && i <= |actions|
    ensures Sound(states[i]) && Coherent(reaching, states[i])
  {
    if i > 0 {
      hide Sound, Coherent, Can, Do;
      RunIsCoherent(reaching, states, actions, i - 1);
      SoundKept(reaching, states[i - 1], actions[i - 1]);
      CoherentKept(reaching, states[i - 1], actions[i - 1]);
    }
  }

  /** Cache coherence: whenever, in a run of creations, completions and deletions of backups nobody
      is queued behind, with any interleaving of event deliveries and reconciles, the work is
      drained, the stored position of every object with an active backup is the one a
      recomputation would give. */
  lemma DrainedPositionsAreCurrent(reaching: set<Id>, states: seq<System>, actions: seq<Action>, i: nat, id: Id, ref: Ref)
    requires IsQueueRun(reaching, states, actions) && i <= |actions| && Quiescent(states[i])
    requires id in reaching && ref in states[i].owned && Active(BACKUP, states[i].owned[ref]) && Ours(states[i].owned[ref], id)
    ensures id in states[i].stored && states[i].stored[id] == Position(states[i].owned, BACKUP, states[i].owned[ref])
  {
    hide Sound, Coherent, Position, Can, Do;
    RunIsCoherent(reaching, states, actions, i);
    CoherentOne(reaching, states[i], id, ref);
  }
}
