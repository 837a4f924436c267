/**
 What one undisturbed pass of the NonAdminBackupStorageLocation controller does to the
 store, step by step.  The controller's methods are proved to do exactly this when nobody
 else writes and nothing fails.
 */
module NabslPass {
  import opened Objects
  import opened Specs
  import opened Cluster
  import opened ApiClient
  import opened Steps
  import opened Naming

  const Minute := 60

  /** ValidateBslSpec: the first objection, if any. */
  function LocationError(cfg: Config, secrets: map<(string, string), int>, ns: string, fields: Fields): Option<Message> {
    var period := if BackupSyncPeriod in fields && fields[BackupSyncPeriod].Num? then fields[BackupSyncPeriod].num
                  else if cfg.defaultSyncPeriod.Some? then cfg.defaultSyncPeriod.value else Minute;
    if Default in fields && fields[Default] == Flag(true) then Some(Restricted(Default))
    else if Credential !in fields || !fields[Credential].SecretKey? then Some(Missing(Credential))
    else if fields[Credential].secret == "" || fields[Credential].key == "" then Some(Invalid(Credential))
    else if cfg.syncPeriod <= period then Some(Restricted(BackupSyncPeriod))
    else match Violation(cfg.fields, cfg.enforcedLocation, fields)
         case Some(f) => Some(Enforced(f))
         case None => if (ns, fields[Credential].secret) in secrets then None else Some(SecretNotFound)
  }

  /** The rules for a location spec, each by itself. */
  predicate FineLocationSpec(cfg: Config, secrets: map<(string, string), int>, ns: string, fields: Fields) {
    && (Default in fields ==> fields[Default] != Flag(true))
    && Credential in fields && fields[Credential].SecretKey?
    && fields[Credential].secret != "" && fields[Credential].key != ""
    && (ns, fields[Credential].secret) in secrets
    && (if BackupSyncPeriod in fields && fields[BackupSyncPeriod].Num? then fields[BackupSyncPeriod].num < cfg.syncPeriod
        else if cfg.defaultSyncPeriod.Some? then cfg.defaultSyncPeriod.value < cfg.syncPeriod
        else 60 < cfg.syncPeriod)
    && Agrees(cfg.enforcedLocation, fields)
  }

  /** A location spec is valid exactly when it is not the default, names a credential the user
      has, is synchronised more often than non-admin backups are, and agrees with the enforced spec. */
  lemma LocationSpecValidIff(cfg: Config, secrets: map<(string, string), int>, ns: string, fields: Fields)
    requires ValidConfig(cfg)
    ensures LocationError(cfg, secrets, ns, fields).None? <==> FineLocationSpec(cfg, secrets, ns, fields)
  {
    ViolationNoneMeansAgreement(cfg.fields, cfg.enforcedLocation, fields);
  }

  function PhaseFor(decision: Decision): RequestPhase {
    match decision
    case Approve => PhaseApproved
    case Reject => PhaseRejected
    case _ => PhasePending
  }

  /** updatePhaseIfNeeded */
  function PhaseUpdated(o: Owned): Owned {
    if o.body.Request? then o.(body := o.body.(phase := PhaseFor(o.body.decision))) else o
  }

  /** updateNonAdminRequestStatus */
  function SourceRecorded(o: Owned, source: Source, decision: Decision): Owned {
    if o.body.Request? then o.(body := o.body.(source := Some(source), phase := PhaseFor(decision))) else o
  }

  function Decided(o: Owned, decision: Decision): Owned {
    if o.body.Request? then o.(body := o.body.(decision := decision)) else o
  }

  function ValidateStep(cfg: Config, s: Store, id: Id): (out: Out)
    requires id in s.crs
    ensures id in out.store.crs
  {
    var st := s.crs[id].status;
    match LocationError(cfg, s.secrets, id.ns, s.crs[id].spec.fields)
    case Some(m) =>
      Out(DoWriteStatus(s, id, WithCondition(st.(phase := BackingOff), Accepted, false, BslSpecValidation, m)), Failed)
    case None =>
      Out(DoWriteStatus(s, id, WithCondition(st, Accepted, true, BslSpecValidation, NoMessage)), Continue)
  }

  function UuidStep(s: Store, id: Id, token: string): (out: Out)
    requires id in s.crs && |token| == UuidLength
    ensures out.outcome == Continue
    ensures id in out.store.crs
  {
    var st := s.crs[id].status;
    Out(if st.uuid == "" then DoWriteStatus(s, id, st.(uuid := Generated(id.ns, id.name, token))) else s, Continue)
  }

  ghost function RequestStep(cfg: Config, s: Store, id: Id): (out: Out)
    requires id in s.crs
    ensures id in out.store.crs
  {
    var uuid := s.crs[id].status.uuid;
    var found := Found(s, REQUEST, uuid);
    if uuid == "" || |found| > 1 then Out(s, Failed)
    else if |found| == 1 then
      var ref := Only(found);
      var s1 := DoPut(s, ref, PhaseUpdated(s.owned[ref]));
      Out(if !cfg.requireApproval && s.owned[ref].body.Request? && s.owned[ref].body.decision != Approve
          then DoPut(s1, ref, Decided(s1.owned[ref], Approve)) else s1,
          Continue)
    else if Ref(REQUEST, uuid) in s.owned then Out(s, Failed)
    else
      var decision := if cfg.requireApproval then Decision.Pending else Approve;
      var ref := Ref(REQUEST, uuid);
      var s1 := DoPut(s, ref, NewObject(id, uuid, Request(decision, NoPhase, None)));
      Out(DoPut(s1, ref, SourceRecorded(s1.owned[ref], Source(uuid, id, s.crs[id].spec.fields), decision)), Requeue)
  }

  /** deleteVeleroBSLSecret and deleteVeleroBSL: the labelled object goes, if there is exactly one. */
  ghost function Dropped(s: Store, kind: OwnedKind, uuid: string): (t: Store)
    ensures t.crs == s.crs
  {
    if uuid != "" && |Found(s, kind, uuid)| == 1 then DoRemove(s, Only(Found(s, kind, uuid))) else s
  }

  function ReasonFor(decision: Decision): Reason {
    match decision
    case NoDecision => BslSpecApprovalPending
    case Pending => BslSpecApprovalPending
    case Approve => BslSpecApproved
    case Reject => BslSpecRejected
    case OtherDecision(_) => BslSpecInvalid
  }

  ghost function Withdrawn(s: Store, id: Id, st: Status): (out: Out)
    requires id in s.crs
    ensures id in out.store.crs
  {
    if st.uuid == "" || |Found(s, SECRET, st.uuid)| > 1 then Out(s, Failed)
    else
      var s1 := Dropped(Dropped(s, SECRET, st.uuid), BSL, st.uuid);
      Out(DoWriteStatus(s1, id, WithoutCondition(WithoutCondition(st, SecretSynced), BslSynced)), Failed)
  }

  ghost function DecisionStep(s: Store, id: Id, decision: Decision): (out: Out)
    requires id in s.crs
    ensures id in out.store.crs
  {
    var st, reason := s.crs[id].status, ReasonFor(decision);
    match decision
    case Approve =>
      Out(DoWriteStatus(s, id, WithCondition(st.(phase := New), AdminApproved, true, reason, NoMessage)), Continue)
    case Pending =>
      Withdrawn(s, id, WithCondition(st.(phase := New), AdminApproved, false, reason, NoMessage))
    case NoDecision =>
      Withdrawn(s, id, WithCondition(st.(phase := New), AdminApproved, false, reason, NoMessage))
    case _ =>
      Withdrawn(s, id, WithCondition(st.(phase := BackingOff), AdminApproved, false, reason, NoMessage))
  }

  ghost function EnsureStep(cfg: Config, s: Store, id: Id): (out: Out)
    requires id in s.crs
    ensures id in out.store.crs
  {
    var st := s.crs[id].status;
    var found := Found(s, REQUEST, st.uuid);
    if st.uuid == "" || |found| != 1 || !s.owned[Only(found)].body.Request? then Out(s, Failed)
    else
      var request := s.owned[Only(found)].body;
      if request.source.None? then Out(s, Requeue)
      else if request.source.value.fields != s.crs[id].spec.fields then
        Out(DoWriteStatus(s, id, WithCondition(st, SpecUpdateApproved, false, BslSpecUpdateRejected, NoMessage)), Failed)
      else if request.source.value.uuid == "" || request.source.value.uuid != st.uuid then
        Withdrawn(s, id, WithCondition(st.(phase := BackingOff), AdminApproved, false, BslSpecUpdateRejected, NoMessage))
      else
        DecisionStep(s, id, request.decision)
  }

  /** CreateOrUpdate: the object as it should be, whether or not it was there. */
  function Ensured(s: Store, ref: Ref, id: Id, uuid: string, body: Body): (t: Store)
    ensures t.crs == s.crs
  {
    DoPut(s, ref, if ref in s.owned then s.owned[ref].(body := body) else NewObject(id, uuid, body))
  }

  function SecretWith(o: Owned, data: int): Owned {
    o.(body := Credentials(data))
  }

  function SecretStatus(st: Status, op: Change): Status {
    match op
    case WasCreated => WithCondition(st, SecretSynced, true, SecretCreated, NoMessage)
    case WasUpdated => WithCondition(st, SecretSynced, true, SecretUpdated, NoMessage)
    case Unchanged => st
  }

  ghost function SecretWritten(s: Store, id: Id, data: int): (out: Out)
    requires id in s.crs
    ensures id in out.store.crs
  {
    var st := s.crs[id].status;
    var found := Found(s, SECRET, st.uuid);
    var ref := if |found| == 1 then Only(found) else Ref(SECRET, st.uuid);
    var s1 := Ensured(s, ref, id, st.uuid, Credentials(data));
    if ref !in s.owned then
      Out(DoWriteStatus(s1, id, WithCondition(st, SecretSynced, true, SecretCreated, NoMessage)), Continue)
    else if s.owned[ref].body != Credentials(data) then
      Out(DoWriteStatus(s1, id, WithCondition(st, SecretSynced, true, SecretUpdated, NoMessage)), Continue)
    else Out(s1, Continue)
  }

  ghost function SecretStep(s: Store, id: Id): (out: Out)
    requires id in s.crs
    ensures id in out.store.crs
  {
    var uuid, fields := s.crs[id].status.uuid, s.crs[id].spec.fields;
    if uuid == "" || Credential !in fields || !fields[Credential].SecretKey? || fields[Credential].secret == "" then
      Out(s, Continue)
    else if (id.ns, fields[Credential].secret) !in s.secrets || |Found(s, SECRET, uuid)| > 1 then Out(s, Failed)
    else SecretWritten(s, id, s.secrets[(id.ns, fields[Credential].secret)])
  }

  function LocationBody(was: Body, fields: Fields): Body {
    if was.Location? then was.(fields := fields) else Location(fields, false, 0)
  }

  function LocationWith(o: Owned, fields: Fields): Owned {
    o.(body := LocationBody(o.body, fields))
  }

  function LocationStatus(st: Status, op: Change): Status {
    (match op
     case WasCreated => WithCondition(st, BslSynced, true, BslCreated, NoMessage)
     case WasUpdated => WithCondition(st, BslSynced, true, BslUpdated, NoMessage)
     case Unchanged => st).(phase := Created)
  }

  ghost function LocationWritten(cfg: Config, s: Store, id: Id, secret: string): (out: Out)
    requires id in s.crs
    ensures id in out.store.crs
  {
    var c := s.crs[id];
    var uuid := c.status.uuid;
    var fields := LocationFields(cfg.enforcedLocation, c.spec.fields, id.ns, secret);
    var ref := if |Found(s, BSL, uuid)| == 1 then Only(Found(s, BSL, uuid)) else Ref(BSL, uuid);
    var body := if ref in s.owned then LocationBody(s.owned[ref].body, fields) else Location(fields, false, 0);
    var s1 := Ensured(s, ref, id, uuid, body);
    var op := if ref !in s.owned then WasCreated else if s.owned[ref].body != body then WasUpdated else Unchanged;
    Out(DoWriteStatus(s1, id, LocationStatus(c.status, op)), Continue)
  }

  ghost function LocationStep(cfg: Config, s: Store, id: Id): (out: Out)
    requires id in s.crs
    ensures id in out.store.crs
  {
    var c := s.crs[id];
    var uuid := c.status.uuid;
    if uuid == "" then Out(s, Continue)
    else if |Found(s, BSL, uuid)| > 1 || |Found(s, SECRET, uuid)| > 1 then Out(s, Failed)
    else if |Found(s, SECRET, uuid)| == 0 then Out(s, Continue)
    else if Credential !in c.spec.fields then Out(s, Failed)
    else LocationWritten(cfg, s, id, Only(Found(s, SECRET, uuid)).name)
  }

  function HealthOf(body: Body): Body {
    if body.Location? then body.(fields := map[]) else Location(map[], false, 0)
  }

  function Mirrored(st: Status, body: Body): Status {
    var current := if st.mirror.Some? then st.mirror.value else Location(map[], false, 0);
    if current == HealthOf(body) then st else st.(mirror := Some(HealthOf(body)))
  }

  ghost function MirrorStep(s: Store, id: Id): (out: Out)
    requires id in s.crs
    ensures id in out.store.crs
  {
    var uuid := s.crs[id].status.uuid;
    if uuid == "" || |Found(s, BSL, uuid)| > 1 then Out(s, Failed)
    else if |Found(s, BSL, uuid)| == 0 then Out(s, Continue)
    else Out(DoWriteStatus(s, id, Mirrored(s.crs[id].status, s.owned[Only(Found(s, BSL, uuid))].body)), Continue)
  }

  /** One undisturbed pass over a location that is not being deleted. */
  ghost function Pass(cfg: Config, s: Store, id: Id, token: string): (out: Out)
    requires |token| == UuidLength && id in s.crs
    ensures id in out.store.crs
  {
    var o1 := InitStep(s, id);
    var o2 := ValidateStep(cfg, o1.store, id);
    if o2.outcome != Continue then o2 else
    var o3 := UuidStep(o2.store, id, token);
    var o4 := RequestStep(cfg, o3.store, id);
    if o4.outcome != Continue then o4 else
    var o5 := FinalizerStep(o4.store, id);
    var o6 := EnsureStep(cfg, o5.store, id);
    if o6.outcome != Continue then o6 else
    var o7 := SecretStep(o6.store, id);
    if o7.outcome != Continue then o7 else
    var o8 := LocationStep(cfg, o7.store, id);
    if o8.outcome != Continue then o8 else
    MirrorStep(o8.store, id)
  }
}
