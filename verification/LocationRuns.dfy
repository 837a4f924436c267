/**
 The other direction for the location controller: an undisturbed pass is itself a piece of a
 run, so what a pass does is something that happens in a run.
 */
module LocationRuns {
  import opened Objects
  import opened Specs
  import opened Cluster
  import opened Protocol
  import opened Interference
  import opened ApiClient
  import opened NabslPass
  import opened Steps
  import opened Naming
  import opened Approval
  import opened Reach
  import Nabsl

  lemma EnteringReaches(cfg: Config, s: Store, id: Id, token: string)
    requires Ready(cfg, s, id) && id.kind == NABSL && |token| == UuidLength && (s.crs[id].status.uuid == "" ==> TokenFree(s, token))
    ensures Reaches(cfg, s, Entering(cfg, s, id, token))
  {
    hide Inv, Reaches, LocationError, TokenFree, EndsWith, UuidStep;
    var s1 := InitStep(s, id).store;
    InitReaches(cfg, s, id);
    var s2 := ValidateStep(cfg, s1, id).store;
    ValidateReaches(cfg, s1, id);
    ReachesOn(cfg, s, s1, s2);
    UuidReaches(cfg, s, s2, id, token);
    ReachesOn(cfg, s, s2, UuidStep(s2, id, token).store);
  }

  lemma ValidateReaches(cfg: Config, s: Store, id: Id)
    requires id in s.crs && id.kind == NABSL
    ensures var t := ValidateStep(cfg, s, id).store;
            Reaches(cfg, s, t) && t.crs[id].status.uuid == s.crs[id].status.uuid && t.owned == s.owned
            && (s.crs[id].status.uuid == "" ==> t.issued == s.issued)
  {
    hide Reaches, LocationError;
    var err, st := LocationError(cfg, s.secrets, id.ns, s.crs[id].spec.fields), s.crs[id].status;
    if err.Some? {
      StatusReaches(cfg, s, id, WithCondition(st.(phase := BackingOff), Accepted, false, BslSpecValidation, err.value));
    } else {
      StatusReaches(cfg, s, id, WithCondition(st, Accepted, true, BslSpecValidation, NoMessage));
    }
  }

  lemma UuidReaches(cfg: Config, s: Store, s2: Store, id: Id, token: string)
    requires id in s2.crs && |token| == UuidLength && s2.owned == s.owned
    requires s2.crs[id].status.uuid == "" ==> TokenFree(s, token) && s2.issued == s.issued
    requires id.kind == NABSL
    ensures Reaches(cfg, s2, UuidStep(s2, id, token).store)
  {
    hide Reaches;
    ReachesItself(cfg, s2);
    if s2.crs[id].status.uuid == "" {
      var uuid := Generated(id.ns, id.name, token);
      GeneratedNameBounds(id.ns, id.name, token);
      FreshNameUnused(s2, token, uuid);
      StepReaches(cfg, s2, Step(Worker(id), WriteStatus(id, s2.crs[id].status.(uuid := uuid))));
    }
  }

  lemma RequestReaches(cfg: Config, s: Store, id: Id)
    requires Ready(cfg, s, id) && id.kind == NABSL && s.crs[id].status.uuid != ""
    ensures var t := RequestStep(cfg, s, id).store; Reaches(cfg, s, t) && t.crs == s.crs
  {
    hide Inv, Found, Reaches, DoPut;
    FoundIsRef(cfg, s, id, REQUEST);
    var ref := Ref(REQUEST, s.crs[id].status.uuid);
    if ref in s.owned {
      RequestUpdateReaches(cfg, s, id);
    } else {
      RequestCreationReaches(cfg, s, id);
    }
  }

  lemma RequestUpdateReaches(cfg: Config, s: Store, id: Id)
    requires Ready(cfg, s, id) && id.kind == NABSL && s.crs[id].status.uuid != ""
    requires Ref(REQUEST, s.crs[id].status.uuid) in s.owned
    ensures var ref := Ref(REQUEST, s.crs[id].status.uuid);
            var s1 := DoPut(s, ref, PhaseUpdated(s.owned[ref]));
            && Reaches(cfg, s, s1) && ref in s1.owned && s1.crs == s.crs
            && var s2 := DoPut(s1, ref, Decided(s1.owned[ref], Approve));
               s2.crs == s.crs && (!cfg.requireApproval ==> Reaches(cfg, s, s2))
  {
    hide Inv, Found, Reaches;
    FoundIsRef(cfg, s, id, REQUEST);
    var ref := Ref(REQUEST, s.crs[id].status.uuid);
    Nabsl.RequestTyped(cfg, s, ref);
    PutReaches(cfg, s, id, ref, PhaseUpdated(s.owned[ref]));
    var s1 := DoPut(s, ref, PhaseUpdated(s.owned[ref]));
    if !cfg.requireApproval {
      PutReaches(cfg, s1, id, ref, Decided(s1.owned[ref], Approve));
      ReachesOn(cfg, s, s1, DoPut(s1, ref, Decided(s1.owned[ref], Approve)));
    }
  }

  /** The two writes that make a request, and the moment between them. */
  lemma RequestCreationReaches(cfg: Config, s: Store, id: Id)
    requires Ready(cfg, s, id) && id.kind == NABSL && s.crs[id].status.uuid != ""
    requires Ref(REQUEST, s.crs[id].status.uuid) !in s.owned
    ensures var uuid := s.crs[id].status.uuid;
            var ref := Ref(REQUEST, uuid);
            var decision := if cfg.requireApproval then Decision.Pending else Approve;
            var s1 := DoPut(s, ref, NewObject(id, uuid, Request(decision, NoPhase, None)));
            && ref in s1.owned
            && var s2 := DoPut(s1, ref, SourceRecorded(s1.owned[ref], Source(uuid, id, s.crs[id].spec.fields), decision));
               && Reaches(cfg, s, s1) && Reaches(cfg, s1, s2) && Reaches(cfg, s, s2) && s2.crs == s.crs
               && RequestStep(cfg, s, id) == Out(s2, Requeue)
  {
    hide Inv, Reaches;
    FoundIsRef(cfg, s, id, REQUEST);
    hide Found;
    var uuid := s.crs[id].status.uuid;
    var ref := Ref(REQUEST, uuid);
    var decision := if cfg.requireApproval then Decision.Pending else Approve;
    PutReaches(cfg, s, id, ref, NewObject(id, uuid, Request(decision, NoPhase, None)));
    var s1 := DoPut(s, ref, NewObject(id, uuid, Request(decision, NoPhase, None)));
    var o := SourceRecorded(s1.owned[ref], Source(uuid, id, s.crs[id].spec.fields), decision);
    PutReaches(cfg, s1, id, ref, o);
    ReachesOn(cfg, s, s1, DoPut(s1, ref, o));
  }

  lemma DropReaches(cfg: Config, s: Store, id: Id, kind: OwnedKind)
    requires Held(cfg, s, id) && id.kind == NABSL && kind in {SECRET, BSL}
    ensures var t := Dropped(s, kind, s.crs[id].status.uuid);
            Reaches(cfg, s, t) && Held(cfg, t, id) && t.crs == s.crs
  {
    hide Inv, Found, Reaches, DoRemove;
    ReachesItself(cfg, s);
    FoundIsRef(cfg, s, id, kind);
    var ref := Ref(kind, s.crs[id].status.uuid);
    if ref in s.owned {
      StepReaches(cfg, s, Step(Worker(id), Remove(ref)));
      StepKeepsInv(cfg, s, Step(Worker(id), Remove(ref)));
    }
  }

  lemma WithdrawnReaches(cfg: Config, s: Store, id: Id, st: Status)
    requires Held(cfg, s, id) && id.kind == NABSL && st.uuid == s.crs[id].status.uuid
    requires IsTrue(s.crs[id].status.conds, Queued) ==> IsTrue(st.conds, Queued)
    ensures Reaches(cfg, s, Withdrawn(s, id, st).store) && Withdrawn(s, id, st).outcome == Failed
  {
    hide Inv, Found, Reaches, Dropped, DoWriteStatus;
    ReachesItself(cfg, s);
    DropReaches(cfg, s, id, SECRET);
    var s1 := Dropped(s, SECRET, st.uuid);
    DropReaches(cfg, s1, id, BSL);
    var s2 := Dropped(s1, BSL, st.uuid);
    ReachesOn(cfg, s, s1, s2);
    var st2 := WithoutCondition(WithoutCondition(st, SecretSynced), BslSynced);
    StatusReaches(cfg, s2, id, st2);
    ReachesOn(cfg, s, s2, DoWriteStatus(s2, id, st2));
  }

  /** The request holds the very spec the object asks for. */
  predicate SpecMatches(s: Store, id: Id)
    requires id in s.crs
  {
    var source := SourceOf(s.owned, s.crs[id].status.uuid);
    source.Some? && source.value.fields == s.crs[id].spec.fields
  }

  lemma EnsureReaches(cfg: Config, s: Store, id: Id)
    requires Held(cfg, s, id) && id.kind == NABSL
    ensures var out := EnsureStep(cfg, s, id);
            && Reaches(cfg, s, out.store)
            && (out.outcome == Continue ==> Held(cfg, out.store, id) && SpecMatches(out.store, id))
  {
    hide Inv, Found, Reaches, Withdrawn, DecisionStep;
    ReachesItself(cfg, s);
    FoundIsRef(cfg, s, id, REQUEST);
    var st := s.crs[id].status;
    StatusReaches(cfg, s, id, WithCondition(st, SpecUpdateApproved, false, BslSpecUpdateRejected, NoMessage));
    WithdrawnReaches(cfg, s, id, WithCondition(st.(phase := BackingOff), AdminApproved, false, BslSpecUpdateRejected, NoMessage));
    var ref := Ref(REQUEST, st.uuid);
    if ref in s.owned && s.owned[ref].body.Request? {
      DecisionReaches(cfg, s, id, s.owned[ref].body.decision);
    }
  }

  lemma DecisionReaches(cfg: Config, s: Store, id: Id, decision: Decision)
    requires Held(cfg, s, id) && id.kind == NABSL
    ensures var out := DecisionStep(s, id, decision);
            && Reaches(cfg, s, out.store)
            && (out.outcome == Continue ==>
                  && Held(cfg, out.store, id) && out.store.owned == s.owned
                  && out.store.crs[id].spec == s.crs[id].spec && out.store.crs[id].status.uuid == s.crs[id].status.uuid)
  {
    hide Inv, Reaches, Withdrawn, DoWriteStatus;
    var st, reason := s.crs[id].status, ReasonFor(decision);
    match decision
    case Approve =>
      var now := WithCondition(st.(phase := New), AdminApproved, true, reason, NoMessage);
      StatusReaches(cfg, s, id, now);
      ReachesKeepsInv(cfg, s, DoWriteStatus(s, id, now));
      StatusWritten(s, id, now);
    case Pending =>
      WithdrawnReaches(cfg, s, id, WithCondition(st.(phase := New), AdminApproved, false, reason, NoMessage));
    case NoDecision =>
      WithdrawnReaches(cfg, s, id, WithCondition(st.(phase := New), AdminApproved, false, reason, NoMessage));
    case _ =>
      WithdrawnReaches(cfg, s, id, WithCondition(st.(phase := BackingOff), AdminApproved, false, reason, NoMessage));
  }

  lemma SecretPutReaches(cfg: Config, s: Store, id: Id, data: int)
    requires Held(cfg, s, id) && id.kind == NABSL
    ensures var uuid := s.crs[id].status.uuid;
            var t := Ensured(s, Ref(SECRET, uuid), id, uuid, Credentials(data));
            Reaches(cfg, s, t) && SourceOf(t.owned, uuid) == SourceOf(s.owned, uuid)
  {
    hide Inv, Found, Reaches;
    FoundIsRef(cfg, s, id, SECRET);
    var uuid := s.crs[id].status.uuid;
    var ref := Ref(SECRET, uuid);
    PutReaches(cfg, s, id, ref,
               if ref in s.owned then s.owned[ref].(body := Credentials(data)) else NewObject(id, uuid, Credentials(data)));
  }

  lemma SecretReaches(cfg: Config, s: Store, id: Id)
    requires Held(cfg, s, id) && id.kind == NABSL && SpecMatches(s, id)
    ensures var t := SecretStep(s, id).store; Reaches(cfg, s, t) && Held(cfg, t, id) && SpecMatches(t, id)
  {
    hide Inv, Found, Reaches, DoWriteStatus, Ensured, SourceOf;
    ReachesItself(cfg, s);
    FoundIsRef(cfg, s, id, SECRET);
    var uuid, fields, st := s.crs[id].status.uuid, s.crs[id].spec.fields, s.crs[id].status;
    if Credential in fields && fields[Credential].SecretKey? && (id.ns, fields[Credential].secret) in s.secrets {
      var data := s.secrets[(id.ns, fields[Credential].secret)];
      SecretPutReaches(cfg, s, id, data);
      var s1 := Ensured(s, Ref(SECRET, uuid), id, uuid, Credentials(data));
      ReachesKeepsInv(cfg, s, s1);
      WriteReaches(cfg, s, s1, id, WithCondition(st, SecretSynced, true, SecretCreated, NoMessage));
      WriteReaches(cfg, s, s1, id, WithCondition(st, SecretSynced, true, SecretUpdated, NoMessage));
    }
  }

  lemma LocationPutReaches(cfg: Config, s: Store, id: Id)
    requires Held(cfg, s, id) && id.kind == NABSL && (s.crs[id].status.uuid in cfg.raced || SpecMatches(s, id))
    ensures var uuid, ref := s.crs[id].status.uuid, Ref(BSL, s.crs[id].status.uuid);
            var fields := LocationFields(cfg.enforcedLocation, s.crs[id].spec.fields, id.ns, uuid);
            var body := if ref in s.owned then LocationBody(s.owned[ref].body, fields) else Location(fields, false, 0);
            var t := Ensured(s, ref, id, uuid, body);
            Reaches(cfg, s, t)
  {
    hide Inv, Found, Reaches, LocationFields, SourceOf;
    FoundIsRef(cfg, s, id, BSL);
    var uuid, ref := s.crs[id].status.uuid, Ref(BSL, s.crs[id].status.uuid);
    var fields := LocationFields(cfg.enforcedLocation, s.crs[id].spec.fields, id.ns, uuid);
    var body := if ref in s.owned then LocationBody(s.owned[ref].body, fields) else Location(fields, false, 0);
    PutReaches(cfg, s, id, ref, if ref in s.owned then s.owned[ref].(body := body) else NewObject(id, uuid, body));
  }

  lemma LocationReaches(cfg: Config, s: Store, id: Id)
    requires Held(cfg, s, id) && id.kind == NABSL && (s.crs[id].status.uuid in cfg.raced || SpecMatches(s, id))
    ensures var t := LocationStep(cfg, s, id).store; Reaches(cfg, s, t) && Held(cfg, t, id)
  {
    hide Inv, Found, Reaches, DoWriteStatus, Ensured, LocationFields, SpecMatches;
    ReachesItself(cfg, s);
    FoundIsRef(cfg, s, id, SECRET);
    FoundIsRef(cfg, s, id, BSL);
    LocationPutReaches(cfg, s, id);
    var uuid, ref, st := s.crs[id].status.uuid, Ref(BSL, s.crs[id].status.uuid), s.crs[id].status;
    var fields := LocationFields(cfg.enforcedLocation, s.crs[id].spec.fields, id.ns, uuid);
    var body := if ref in s.owned then LocationBody(s.owned[ref].body, fields) else Location(fields, false, 0);
    var s1 := Ensured(s, ref, id, uuid, body);
    WriteReaches(cfg, s, s1, id, LocationStatus(st, WasCreated));
    WriteReaches(cfg, s, s1, id, LocationStatus(st, WasUpdated));
    WriteReaches(cfg, s, s1, id, LocationStatus(st, Unchanged));
  }

  lemma MirrorReaches(cfg: Config, s: Store, id: Id)
    requires Held(cfg, s, id) && id.kind == NABSL
    ensures Reaches(cfg, s, MirrorStep(s, id).store)
  {
    hide Inv, Found, Reaches, DoWriteStatus;
    ReachesItself(cfg, s);
    FoundIsRef(cfg, s, id, BSL);
    var ref, st := Ref(BSL, s.crs[id].status.uuid), s.crs[id].status;
    if ref in s.owned {
      StatusReaches(cfg, s, id, Mirrored(st, s.owned[ref].body));
    }
  }

  lemma EnteredIsReady(cfg: Config, s: Store, id: Id, token: string)
    requires Ready(cfg, s, id) && id.kind == NABSL && |token| == UuidLength
    ensures var t := Entering(cfg, s, id, token); id in t.crs && t.crs[id].status.uuid != ""
  {
    hide Inv, LocationError, TokenFree, EndsWith, DoWriteStatus;
    GeneratedNameBounds(id.ns, id.name, token);
    var s1 := InitStep(s, id).store;
    var s2 := ValidateStep(cfg, s1, id).store;
    StatusWritten(s2, id, s2.crs[id].status.(uuid := Generated(id.ns, id.name, token)));
  }

  lemma FollowingReaches(cfg: Config, s: Store, id: Id)
    requires Ready(cfg, s, id) && id.kind == NABSL && s.crs[id].status.uuid != ""
    ensures Reaches(cfg, s, Following(cfg, s, id).store)
  {
    hide Inv, Reaches, EnsureStep, Providing, SpecMatches;
    var s5 := FinalizerStep(s, id).store;
    FinalizerReaches(cfg, s, id);
    ReachesKeepsInv(cfg, s, s5);
    EnsureReaches(cfg, s5, id);
    var o6 := EnsureStep(cfg, s5, id);
    ReachesOn(cfg, s, s5, o6.store);
    if o6.outcome == Continue {
      ProvidingReaches(cfg, o6.store, id);
      ReachesOn(cfg, s, o6.store, Providing(cfg, o6.store, id).store);
    }
  }

  lemma ProvidingReaches(cfg: Config, s: Store, id: Id)
    requires Held(cfg, s, id) && id.kind == NABSL && SpecMatches(s, id)
    ensures Reaches(cfg, s, Providing(cfg, s, id).store)
  {
    hide Inv, Reaches, SpecMatches, SecretStep, LocationStep, MirrorStep;
    var s7 := SecretStep(s, id).store;
    SecretReaches(cfg, s, id);
    var s8 := LocationStep(cfg, s7, id).store;
    LocationReaches(cfg, s7, id);
    ReachesOn(cfg, s, s7, s8);
    MirrorReaches(cfg, s8, id);
    ReachesOn(cfg, s, s8, MirrorStep(s8, id).store);
  }

  /** Every undisturbed pass over a location, valid or not, approved or not, is a piece of a run. */
  lemma LocationPassIsRun(cfg: Config, s: Store, id: Id, token: string)
    requires Ready(cfg, s, id) && id.kind == NABSL && |token| == UuidLength && (s.crs[id].status.uuid == "" ==> TokenFree(s, token))
    ensures Reaches(cfg, s, Pass(cfg, s, id, token).store)
  {
    hide Inv, Reaches, Pass, RequestStep, Following, Entering, LocationError, TokenFree;
    if LocationError(cfg, s.secrets, id.ns, s.crs[id].spec.fields).None? {
      PassIs(cfg, s, id, token);
      var s3 := Entering(cfg, s, id, token);
      EnteringReaches(cfg, s, id, token);
      ReachesKeepsInv(cfg, s, s3);
      EnteredIsReady(cfg, s, id, token);
      var s4 := RequestStep(cfg, s3, id).store;
      RequestReaches(cfg, s3, id);
      ReachesOn(cfg, s, s3, s4);
      ReachesKeepsInv(cfg, s, s4);
      FollowingReaches(cfg, s4, id);
      ReachesOn(cfg, s, s4, Following(cfg, s4, id).store);
    } else {
      RejectedPassReaches(cfg, s, id, token);
    }
  }

  lemma RejectedPassReaches(cfg: Config, s: Store, id: Id, token: string)
    requires Ready(cfg, s, id) && id.kind == NABSL && |token| == UuidLength
    requires LocationError(cfg, s.secrets, id.ns, s.crs[id].spec.fields).Some?
    ensures Reaches(cfg, s, Pass(cfg, s, id, token).store)
  {
    hide Inv, Reaches, LocationError, RequestStep, FinalizerStep, EnsureStep, SecretStep, LocationStep, MirrorStep, UuidStep;
    var s1 := InitStep(s, id).store;
    InitReaches(cfg, s, id);
    ValidateReaches(cfg, s1, id);
    ReachesOn(cfg, s, s1, ValidateStep(cfg, s1, id).store);
    assert s1.secrets == s.secrets && s1.crs[id].spec == s.crs[id].spec;
  }
}
