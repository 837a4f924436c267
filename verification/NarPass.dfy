/**
 What one undisturbed pass of the NonAdminRestore controller does to the store, step by step.
 */
module NarPass {
  import opened Objects
  import opened Specs
  import opened Cluster
  import opened Protocol
  import opened ApiClient
  import opened Steps
  import opened NabPass
  import opened Naming
  import Queue

  /** ValidateRestoreSpec: the first objection, if any. */
  function RestoreError(cfg: Config, s: Store, ns: string, fields: Fields): Option<Message> {
    var backup := Id(NAB, ns, StrOf(fields, BackupName));
    if StrOf(fields, ScheduleName) != "" then Some(Restricted(ScheduleName))
    else if StrOf(fields, BackupName) == "" then Some(Missing(BackupName))
    else if backup !in s.crs || s.crs[backup].status.phase != Created then Some(Invalid(BackupName))
    else if IncludedNamespaces in fields then Some(Restricted(IncludedNamespaces))
    else if ExcludedNamespaces in fields then Some(Restricted(ExcludedNamespaces))
    else if NamespaceMapping in fields then Some(Restricted(NamespaceMapping))
    else match Violation(cfg.fields, cfg.enforcedRestore, fields)
         case Some(f) => Some(Enforced(f))
         case None => None
  }

  /** The rules for a restore spec, each by itself. */
  predicate FineRestoreSpec(cfg: Config, s: Store, ns: string, fields: Fields) {
    && StrOf(fields, ScheduleName) == "" && StrOf(fields, BackupName) != ""
    && Id(NAB, ns, StrOf(fields, BackupName)) in s.crs
    && s.crs[Id(NAB, ns, StrOf(fields, BackupName))].status.phase == Created
    && IncludedNamespaces !in fields && ExcludedNamespaces !in fields && NamespaceMapping !in fields
    && Agrees(cfg.enforcedRestore, fields)
  }

  /** A restore spec is valid exactly when it names a finished backup of its own namespace, sets
      none of the fields users may not set, and agrees with the enforced spec. */
  lemma RestoreSpecValidIff(cfg: Config, s: Store, ns: string, fields: Fields)
    requires ValidConfig(cfg)
    ensures RestoreError(cfg, s, ns, fields).None? <==> FineRestoreSpec(cfg, s, ns, fields)
  {
    ViolationNoneMeansAgreement(cfg.fields, cfg.enforcedRestore, fields);
  }

  function ValidateRestoreStep(cfg: Config, s: Store, id: Id): (out: Out)
    requires id in s.crs
    ensures id in out.store.crs
  {
    var err := RestoreError(cfg, s, id.ns, s.crs[id].spec.fields);
    Out(DoWriteStatus(s, id, Checked(s.crs[id].status, err, RestoreAccepted, InvalidRestoreSpec)),
        if err.Some? then Failed else Continue)
  }

  function RestoreUuidStep(s: Store, id: Id, token: string): (out: Out)
    requires id in s.crs && |token| == UuidLength
    ensures id in out.store.crs && out.outcome == Continue
  {
    var st := s.crs[id].status;
    Out(if st.uuid == "" then DoWriteStatus(s, id, st.(uuid := Generated(id.ns, id.name, token))) else s, Continue)
  }

  function RestoreLost(st: Status): Status {
    WithCondition(st.(phase := BackingOff), Accepted, false, VeleroRestoreNotFound, RestoreRemoved)
  }

  function RestoreRecorded(s: Store, id: Id, o: Owned): (t: Store)
    requires id in s.crs
    ensures id in t.crs
  {
    DoWriteStatus(s, id, Recorded(s.crs[id].status, Some(Queue.Position(s.owned, RESTORE, o)), o.body, RestoreScheduled))
  }

  ghost function RestoreStep(cfg: Config, s: Store, id: Id): (out: Out)
    requires id in s.crs
    ensures id in out.store.crs
  {
    var c := s.crs[id];
    var uuid := c.status.uuid;
    var found := Found(s, RESTORE, uuid);
    if uuid == "" || |found| > 1 then Out(s, Failed)
    else if |found| == 1 then Out(RestoreRecorded(s, id, s.owned[Only(found)]), Continue)
    else if IsTrue(c.status.conds, Queued) then Out(DoWriteStatus(s, id, RestoreLost(c.status)), Failed)
    else
      var backup := Id(NAB, id.ns, StrOf(c.spec.fields, BackupName));
      var ref := Ref(RESTORE, uuid);
      if backup !in s.crs || s.crs[backup].status.uuid == "" || ref in s.owned then Out(s, Failed)
      else
        var fields := RestoreFields(cfg.enforcedRestore, c.spec.fields, id.ns, s.crs[backup].status.uuid);
        var s1 := DoPut(s, ref, Stamped(s, NewObject(id, uuid, Restore(fields, 0, false, 0))));
        Out(RestoreRecorded(s1, id, s1.owned[ref]), Continue)
  }

  ghost function RestorePass(cfg: Config, s: Store, id: Id, token: string): (out: Out)
    requires id in s.crs && |token| == UuidLength
    ensures id in out.store.crs
  {
    var o2 := ValidateRestoreStep(cfg, InitStep(s, id).store, id);
    if o2.outcome != Continue then o2
    else RestoreStep(cfg, FinalizerStep(RestoreUuidStep(o2.store, id, token).store, id).store, id)
  }

  ghost function RestoreDeletePass(s: Store, id: Id): Out
    requires id in s.crs
  {
    LetGoStep(DoWriteStatus(s, id, Marked(s.crs[id].status, AcceptedForDeletion)), id, RESTORE)
  }

  /** Once queued, a restore is never started again: whenever its Velero restore is missing,
      an undisturbed pass ends in BackingOff, not accepted, and creates nothing. */
  lemma LostRestoreBacksOff(cfg: Config, s: Store, id: Id, token: string)
    requires id in s.crs && |token| == UuidLength && s.crs[id].status.uuid != ""
    requires IsTrue(s.crs[id].status.conds, Queued) && Found(s, RESTORE, s.crs[id].status.uuid) == {}
    ensures var out := RestorePass(cfg, s, id, token);
            var st := out.store.crs[id].status;
            && out.outcome == Failed && out.store.owned == s.owned
            && st.phase == BackingOff && !IsTrue(st.conds, Accepted) && Accepted in st.conds
            && IsTrue(st.conds, Queued) && st.uuid == s.crs[id].status.uuid
  {
    hide RestoreError, DoWriteStatus, Found;
    var st := s.crs[id].status;
    StatusWritten(s, id, st.(phase := New));
    var s1 := InitStep(s, id).store;
    var err := RestoreError(cfg, s1, id.ns, s1.crs[id].spec.fields);
    StatusWritten(s1, id, Checked(s1.crs[id].status, err, RestoreAccepted, InvalidRestoreSpec));
    var o2 := ValidateRestoreStep(cfg, s1, id);
    if o2.outcome == Continue {
      var s4 := FinalizerStep(RestoreUuidStep(o2.store, id, token).store, id).store;
      assert s4.owned == s.owned && s4.crs[id].status == o2.store.crs[id].status;
      SameOwnedSameFound(s, s4, st.uuid);
      StatusWritten(s4, id, RestoreLost(s4.crs[id].status));
    }
  }

  lemma SameOwnedSameFound(s: Store, t: Store, uuid: string)
    requires t.owned == s.owned
    ensures Found(t, RESTORE, uuid) == Found(s, RESTORE, uuid)
  {
  }
}
