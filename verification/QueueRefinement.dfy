/**
 The queue model and the store of the protocol are about the same thing: what the backup
 controller writes when it finds or creates its backup, and what Velero writes, are steps of
 the queue model, with the positions in the statuses of the store.
 */
module QueueRefinement {
  import opened Objects
  import opened Specs
  import opened Cluster
  import opened Protocol
  import opened ApiClient
  import opened Steps
  import opened NabPass
  import opened Reach
  import opened Queue
  import opened QueueRuns

  function BackupsOf(owned: Objs): Objs {
    map ref | ref in owned && ref.kind == BACKUP :: owned[ref]
  }

  /** The queue model shows the backups of the store and the positions recorded in it. */
  ghost predicate Shows(q: System, s: Store) {
    && q.owned == BackupsOf(s.owned)
    && (forall id: Id | id.kind == NAB && id in s.crs ::
          if s.crs[id].status.queue.Some? then id in q.stored && q.stored[id] == s.crs[id].status.queue.value
          else id !in q.stored)
  }

  lemma SamePositions(owned: Objs, o: Owned)
    ensures Position(BackupsOf(owned), BACKUP, o) == Position(owned, BACKUP, o)
  {
    if Active(BACKUP, o) {
      assert Earlier(BackupsOf(owned), BACKUP, o.body.created) == Earlier(owned, BACKUP, o.body.created);
    }
  }

  /** The status write that records a backup is the queue model's Compute and Save. */
  lemma RecordingIsQueueStep(reaching: set<Id>, q: System, s: Store, id: Id, o: Owned)
    requires Shows(q, s) && id.kind == NAB && id in s.crs && id in q.working && q.working[id] == Work.Found(o)
    ensures Can(reaching, q, Compute(id)) && Can(reaching, Do(reaching, q, Compute(id)), Save(id))
    ensures Shows(Do(reaching, Do(reaching, q, Compute(id)), Save(id)), BackupRecorded(s, id, o))
  {
    hide Position, MirrorOf;
    SamePositions(s.owned, o);
    StatusWritten(s, id, Recorded(s.crs[id].status, Some(Position(s.owned, BACKUP, o)), o.body, BackupScheduled));
    var t := BackupRecorded(s, id, o);
    forall i: Id | i.kind == NAB && i in t.crs && i != id ensures i in s.crs && t.crs[i] == s.crs[i] {
      assert SameCr(s, t, i);
    }
  }

  /** What the queue model takes for granted of a store. */
  ghost predicate Timely(s: Store, id: Id) {
    && s.clock > 0 && (forall r | r in s.owned && Timed(BACKUP, s.owned[r]) :: s.owned[r].body.created <= s.clock)
    && (id in s.crs ==> forall r | r in s.owned && r.kind == BACKUP && Ours(s.owned[r], id) :: r.name == s.crs[id].status.uuid)
  }

  lemma FoundIsOurs(cfg: Config, s: Store, id: Id, ref: Ref)
    requires Held(cfg, s, id) && id.kind == NAB && ref == Ref(BACKUP, s.crs[id].status.uuid) && ref in s.owned
    ensures Ours(s.owned[ref], id)
  {
    hide CrsOk, OwnersOk, RequestsOk, PlainOk, DeletionsOk, FrozenOk, VersionsOk, SyncLabelsOk;
    CarrierIsIssuedTo(cfg, s, id);
    assert NameIssued(s.issued, ref, s.owned[ref]);
    assert BackupOk(s.issued, ref, s.owned[ref]) && NamedByLabel(ref, s.owned[ref]);
  }

  lemma CreationIsQueueStep(reaching: set<Id>, q: System, s: Store, id: Id, body: Body)
    requires Shows(q, s) && id.kind == NAB && id in s.crs && id in q.working && q.working[id] == Started && Timely(s, id)
    requires body.Backup? && !body.completed && Ref(BACKUP, s.crs[id].status.uuid) !in s.owned
    ensures var ref := Ref(BACKUP, s.crs[id].status.uuid);
            var t := DoPut(s, ref, Stamped(s, NewObject(id, ref.name, body)));
            && ref in t.owned
            && var a := OwnCreate(id, ref, t.owned[ref]);
               t.crs == s.crs && Can(reaching, q, a) && Shows(Do(reaching, q, a), t)
  {
    hide Position;
    var ref := Ref(BACKUP, s.crs[id].status.uuid);
    var t := DoPut(s, ref, Stamped(s, NewObject(id, ref.name, body)));
    assert BackupsOf(t.owned) == BackupsOf(s.owned)[ref := t.owned[ref]];
    assert Ours(t.owned[ref], id);
    forall r | r in q.owned ensures !Ours(q.owned[r], id) {
      assert r in s.owned && r.kind == BACKUP;
    }
  }

  /** The first of the three steps: the backup is found, or it is created. */
  function FirstStep(s: Store, t: Store, id: Id): Action
    requires id in s.crs && Ref(BACKUP, s.crs[id].status.uuid) in t.owned
  {
    var ref := Ref(BACKUP, s.crs[id].status.uuid);
    if ref in s.owned then Action.Find(id, ref) else OwnCreate(id, ref, t.owned[ref])
  }

  /** The step of the backup controller that finds or creates the Velero backup and records it is
      a reconcile of the queue model from Started to Save, so the positions its coherence
      theorem speaks of are those in the statuses of the store. */
  lemma BackupStepIsQueueStep(cfg: Config, reaching: set<Id>, q: System, s: Store, id: Id)
    requires Held(cfg, s, id) && id.kind == NAB && BackupStep(cfg, s, id).outcome == Continue
    requires Shows(q, s) && Timely(s, id) && id in q.working && q.working[id] == Started
    ensures var t := BackupStep(cfg, s, id).store;
            && Ref(BACKUP, s.crs[id].status.uuid) in t.owned
            && var a := FirstStep(s, t, id);
               && Can(reaching, q, a)
               && var q1 := Do(reaching, q, a);
                  && Can(reaching, q1, Compute(id)) && Can(reaching, Do(reaching, q1, Compute(id)), Save(id))
                  && Shows(Do(reaching, Do(reaching, q1, Compute(id)), Save(id)), t)
  {
    hide Inv, Matching, DoPut, DoWriteStatus, Stamped, VeleroLocation, BackupFields, Position, Recorded, Shows, Timely, Ours;
    FoundIsRef(cfg, s, id, BACKUP);
    var c, ref := s.crs[id], Ref(BACKUP, s.crs[id].status.uuid);
    if ref in s.owned {
      FoundIsOurs(cfg, s, id, ref);
      assert ref in q.owned && q.owned[ref] == s.owned[ref] by { ShownBackup(q, s, ref); }
      var q1 := Do(reaching, q, Action.Find(id, ref));
      OnlyWorkChanges(q, q1, s);
      RecordingIsQueueStep(reaching, q1, s, id, s.owned[ref]);
      RecordingKeepsObjects(s, id, s.owned[ref]);
    } else {
      var location := VeleroLocation(cfg, s, id.ns, c.spec.fields);
      var body := Backup(BackupFields(cfg.enforcedBackup, c.spec.fields, id.ns, location.value), 0, false, 0);
      CreationIsQueueStep(reaching, q, s, id, body);
      var s1 := DoPut(s, ref, Stamped(s, NewObject(id, c.status.uuid, body)));
      var q1 := Do(reaching, q, OwnCreate(id, ref, s1.owned[ref]));
      RecordingIsQueueStep(reaching, q1, s1, id, s1.owned[ref]);
      RecordingKeepsObjects(s1, id, s1.owned[ref]);
    }
  }

  lemma ShownBackup(q: System, s: Store, ref: Ref)
    requires Shows(q, s) && ref in s.owned && ref.kind == BACKUP
    ensures ref in q.owned && q.owned[ref] == s.owned[ref]
  {
  }

  lemma OnlyWorkChanges(q: System, r: System, s: Store)
    requires Shows(q, s) && r == q.(working := r.working)
    ensures Shows(r, s)
  {
  }

  lemma RecordingKeepsObjects(s: Store, id: Id, o: Owned)
    requires id in s.crs
    ensures BackupRecorded(s, id, o).owned == s.owned
  {
    hide Position;
  }

  /** Velero's writes to a backup that keep its creation time and do not take its completion back
      are changes of the queue model. */
  lemma ChangeIsQueueStep(reaching: set<Id>, q: System, s: Store, ref: Ref, o: Owned)
    requires Shows(q, s) && ref.kind == BACKUP && ref in s.owned && KeepsMetadata(s.owned[ref], o)
    requires s.owned[ref].body.Backup? && o.body.Backup? && o.body.created == s.owned[ref].body.created
    requires s.owned[ref].body.completed ==> o.body.completed
    ensures var t := DoPut(s, ref, o);
            && ref in t.owned
            && (t != s ==> Can(reaching, q, Change(ref, t.owned[ref])) && Shows(Do(reaching, q, Change(ref, t.owned[ref])), t))
  {
    var t := DoPut(s, ref, o);
    assert BackupsOf(t.owned) == BackupsOf(s.owned)[ref := t.owned[ref]];
  }

  /** The deletion of a backup nobody is behind is its Vanish. */
  lemma DeletionIsQueueStep(reaching: set<Id>, q: System, s: Store, ref: Ref)
    requires Shows(q, s) && ref.kind == BACKUP && ref in s.owned && NobodyBehind(reaching, BackupsOf(s.owned), ref)
    ensures var t := Apply(s, Release(ref));
            && (!s.owned[ref].held ==> t == DoRemove(s, ref))
            && Can(reaching, q, Vanish(ref)) && Shows(Do(reaching, q, Vanish(ref)), t)
  {
    hide NobodyBehind;
    assert BackupsOf(s.owned - {ref}) == BackupsOf(s.owned) - {ref};
  }
}
