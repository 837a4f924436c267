/**
 Runs in which the collector, acting on an old list or an old Get, does harm while the
 controllers, the administrator and the user do what they always do.  The first two take a
 needed request away: of a location that is served, and of one about to be.  The third takes
 a backup that has come back to its owner.
 */
module Races {
  import opened Objects
  import opened Specs
  import opened Cluster
  import opened Protocol
  import opened Runs
  import opened Interference
  import opened Naming
  import opened Reach
  import opened LocationRuns
  import opened Limits
  import NabslPass
  import NabPass
  import ObjectRuns
  import Synchronizer
  import Approval
  import Collector
  import opened Steps

  /** The moments of the race, each from the one before: a user creates a location; its first
      pass has just created the request and not yet recorded its source, and here the collector
      lists; the pass ends; the administrator approves; the second pass serves the location;
      the collector deletes what it listed. */
  datatype Race = Race(created: Store, listed: Store, asked: Store, approved: Store, served: Store, collected: Store)

  ghost predicate IsRace(cfg: Config, s: Store, id: Id, spec: Spec, token1: string, token2: string, r: Race) {
    && |token1| == |token2| == UuidLength && id !in s.crs && id in r.created.crs && id in r.approved.crs
    && var ref := Ref(REQUEST, Generated(id.ns, id.name, token1));
       && r.created == DoCreate(s, id, spec, None)
       && r.listed == DoPut(Approval.Entering(cfg, r.created, id, token1), ref,
                            NewObject(id, ref.name, Request(Decision.Pending, NoPhase, None)))
       && r.asked == NabslPass.Pass(cfg, r.created, id, token1).store && ref in r.asked.owned
       && r.approved == DoPut(r.asked, ref, NabslPass.Decided(r.asked.owned[ref], Approve))
       && r.served == NabslPass.Pass(cfg, r.approved, id, token2).store
       && r.collected == DoRemove(r.served, ref)
  }

  /** The location may be created and will be accepted. */
  ghost predicate CanRace(cfg: Config, s: Store, id: Id, spec: Spec, token1: string) {
    && Inv(cfg, s) && cfg.requireApproval && !cfg.staleReads
    && id.kind == NABSL && id.ns != "" && id.name != "" && id !in s.crs
    && NabslPass.LocationError(cfg, s.secrets, id.ns, spec.fields).None?
    && |token1| == UuidLength && TokenFree(s, token1)
    && Generated(id.ns, id.name, token1) in cfg.raced
  }

  /** The request has its source and waits for the decision. */
  ghost predicate Asked(s: Store, id: Id, uuid: string, spec: Spec, decision: Decision) {
    && id in s.crs && Approval.Leads(s, s, id, uuid, Approval.ViewOf(s, id))
    && var v := Approval.ViewOf(s, id);
       && v.cr.spec == spec && !v.cr.deleting && Approval.HasSource(v, uuid)
       && v.request.value.body.source.value == Source(uuid, id, spec.fields)
       && v.request.value.body.decision == decision
       && v.request.value.labels == OwnerLabels(NABSL, uuid) && !v.request.value.held
       && v.secret.None? && v.location.None?
  }

  lemma RaceBegins(cfg: Config, s: Store, id: Id, spec: Spec, token1: string)
    requires CanRace(cfg, s, id, spec, token1)
    ensures var a, uuid := DoCreate(s, id, spec, None), Generated(id.ns, id.name, token1);
            var b := Approval.Entering(cfg, a, id, token1);
            && Reaches(cfg, s, a) && Reaches(cfg, a, b) && Inv(cfg, a) && Inv(cfg, b)
            && a.secrets == s.secrets && b.secrets == s.secrets
            && id in a.crs && a.crs[id].spec == spec && a.crs[id].status == EmptyStatus
            && id in b.crs && b.crs[id].status.uuid == uuid && b.crs[id].spec == spec && !b.crs[id].deleting
            && Approval.Leads(b, b, id, uuid, Approval.View(b.crs[id].(rv := 0), None, None, None))
  {
    hide Inv, Reaches, NabslPass.LocationError, Approval.Leads, Approval.Entering;
    var a := DoCreate(s, id, spec, None);
    StepReaches(cfg, s, Step(User, Create(id, spec, None)));
    ReachesKeepsInv(cfg, s, a);
    assert TokenFree(a, token1);
    Approval.EnterFresh(cfg, a, id, token1);
    EnteringReaches(cfg, a, id, token1);
    ReachesKeepsInv(cfg, a, Approval.Entering(cfg, a, id, token1));
    EnteringDoesNotDelete(cfg, a, id, token1);
  }

  lemma EnteringDoesNotDelete(cfg: Config, s: Store, id: Id, token: string)
    requires id in s.crs && |token| == UuidLength
    ensures Approval.Entering(cfg, s, id, token).crs[id].deleting == s.crs[id].deleting
  {
    hide NabslPass.LocationError, DoWriteStatus, Generated;
    StatusWritten(s, id, s.crs[id].status.(phase := New));
    var s1 := InitStep(s, id).store;
    var o2 := NabslPass.ValidateStep(cfg, s1, id);
    var err := NabslPass.LocationError(cfg, s1.secrets, id.ns, s1.crs[id].spec.fields);
    var st := s1.crs[id].status;
    if err.Some? {
      StatusWritten(s1, id, WithCondition(st.(phase := BackingOff), Accepted, false, BslSpecValidation, err.value));
    } else {
      StatusWritten(s1, id, WithCondition(st, Accepted, true, BslSpecValidation, NoMessage));
    }
    StatusWritten(o2.store, id, o2.store.crs[id].status.(uuid := Generated(id.ns, id.name, token)));
  }

  /** The first pass: between its last two writes the request is one the collector takes. */
  lemma RaceAsks(cfg: Config, s: Store, id: Id, spec: Spec, token1: string, token2: string, r: Race)
    requires CanRace(cfg, s, id, spec, token1) && IsRace(cfg, s, id, spec, token1, token2, r)
    ensures var uuid := Generated(id.ns, id.name, token1);
            && Reaches(cfg, s, r.listed) && Reaches(cfg, r.listed, r.asked) && Reaches(cfg, s, r.asked)
            && Collector.Doomed(cfg, r.listed, Ref(REQUEST, uuid))
            && Asked(r.asked, id, uuid, spec, Decision.Pending) && r.asked.secrets == s.secrets
  {
    hide Inv, Reaches, NabslPass.LocationError, NabslPass.Pass, Approval.Leads, Approval.Entering, NabslPass.RequestStep,
         TokenFree, DoCreate, DoPut, Approval.Following;
    var uuid := Generated(id.ns, id.name, token1);
    var ref := Ref(REQUEST, uuid);
    RaceBegins(cfg, s, id, spec, token1);
    var b := Approval.Entering(cfg, r.created, id, token1);
    ReachesOn(cfg, s, r.created, b);
    var v := Approval.View(b.crs[id].(rv := 0), None, None, None);
    Approval.Stored(b, id, uuid, v, REQUEST);
    RequestCreationReaches(cfg, b, id);
    Approval.PassIs(cfg, r.created, id, token1);
    ReachesOn(cfg, s, b, r.listed);
    ReachesOn(cfg, s, r.listed, r.asked);
    Approval.RequestLeads(cfg, b, b, id, uuid, v);
    RequestShown(cfg, b, r.asked, id, uuid, v);
    JustCreatedIsDoomed(cfg, b, id, uuid);
  }

  lemma JustCreatedIsDoomed(cfg: Config, s: Store, id: Id, uuid: string)
    requires id.kind == NABSL
    ensures Collector.Doomed(cfg, DoPut(s, Ref(REQUEST, uuid), NewObject(id, uuid, Request(Decision.Pending, NoPhase, None))),
                             Ref(REQUEST, uuid))
  {
  }

  lemma RequestShown(cfg: Config, b: Store, t: Store, id: Id, uuid: string, v: Approval.View)
    requires Approval.Leads(b, t, id, uuid, Approval.Requested(cfg, v, id)) && cfg.requireApproval && !v.cr.deleting
    requires id.kind == NABSL && v.cr.status.uuid == uuid && v.secret.None? && v.location.None?
    ensures Asked(t, id, uuid, v.cr.spec, Decision.Pending) && t.secrets == b.secrets
  {
    Approval.LeadsItself(b, t, id, uuid, Approval.Requested(cfg, v, id));
  }

  lemma RaceIsApproved(cfg: Config, s: Store, id: Id, uuid: string, spec: Spec)
    requires Asked(s, id, uuid, spec, Decision.Pending) && id.kind == NABSL
    ensures var ref := Ref(REQUEST, uuid);
            && ref in s.owned
            && var t := DoPut(s, ref, NabslPass.Decided(s.owned[ref], Approve));
               && Reaches(cfg, s, t) && Asked(t, id, uuid, spec, Approve) && t.secrets == s.secrets && t.crs == s.crs
  {
    hide Approval.Leads, Approval.ViewOf, Reaches;
    var ref, v := Ref(REQUEST, uuid), Approval.ViewOf(s, id);
    Approval.Stored(s, id, uuid, v, REQUEST);
    var o := NabslPass.Decided(s.owned[ref], Approve);
    StepReaches(cfg, s, Step(Admin, Put(ref, o)));
    Approval.PutLeads(s, s, id, uuid, v, REQUEST, o);
    var t := DoPut(s, ref, o);
    var w := Approval.PutView(v, REQUEST, o);
    Approval.LeadsItself(s, t, id, uuid, w);
    assert Approval.ViewOf(t, id) == w by { Approval.ViewIs(s, t, id, uuid, w); }
  }

  /** The second pass finds the request approved and serves the location. */
  lemma RaceIsServed(cfg: Config, s: Store, id: Id, uuid: string, spec: Spec, token2: string)
    requires Asked(s, id, uuid, spec, Approve) && Inv(cfg, s) && !cfg.staleReads && cfg.requireApproval
    requires id.kind == NABSL && |token2| == UuidLength && id.ns != "" && id.name != ""
    requires NabslPass.LocationError(cfg, s.secrets, id.ns, spec.fields).None?
    ensures var t, request, location := NabslPass.Pass(cfg, s, id, token2).store, Ref(REQUEST, uuid), Ref(BSL, uuid);
            && Reaches(cfg, s, t) && id in t.crs && !t.crs[id].deleting && t.crs[id].status.uuid == uuid
            && Approval.Served(cfg, t, id) && t.crs[id].spec == spec
            && request in t.owned && !t.owned[request].held && !Collector.Doomed(cfg, t, request)
            && location in t.owned && Claimed(location, t.owned[location])
  {
    hide Inv, Reaches, NabslPass.LocationError, NabslPass.Pass, Approval.Leads, Approval.Passed, Approval.Entered,
         Approval.ViewOf, LocationFields;
    var v := Approval.ViewOf(s, id);
    Approval.StatusShown(s, s, id, uuid, v);
    LocationPassIsRun(cfg, s, id, token2);
    Approval.PassLeads(cfg, s, id, uuid, v, token2);
    var t, data := NabslPass.Pass(cfg, s, id, token2).store, Approval.DataOf(s, id, spec.fields);
    var v1 := Approval.Entered(v, id, token2);
    EnteredView(v, id, token2);
    var w := Approval.Passed(cfg, v1, id, data);
    Approval.FollowedKeeps(cfg, v1, id, data);
    Approval.PassedFollows(cfg, v1, id, data);
    Approval.ViewIs(s, t, id, uuid, w);
    Approval.LeadsItself(s, t, id, uuid, w);
    Approval.StatusShown(s, t, id, uuid, w);
    Approval.Stored(t, id, uuid, w, REQUEST);
    Approval.Stored(t, id, uuid, w, SECRET);
    Approval.Stored(t, id, uuid, w, BSL);
    ViewDeleting(t, id, w);
  }

  lemma EnteredView(v: Approval.View, id: Id, token: string)
    requires |token| == UuidLength && v.cr.status.uuid != ""
    ensures var w := Approval.Entered(v, id, token);
            && w.request == v.request && w.cr.deleting == v.cr.deleting && w.cr.spec == v.cr.spec
            && w.cr.status.uuid == v.cr.status.uuid && w.location == v.location
  {
  }

  lemma ViewDeleting(t: Store, id: Id, w: Approval.View)
    requires id in t.crs && Approval.ViewOf(t, id) == w
    ensures t.crs[id].deleting == w.cr.deleting
  {
  }

  /** Deleting the request of a living location leaves its location with nothing to answer to. */
  lemma RaceUnfreezes(cfg: Config, s: Store, id: Id, uuid: string)
    requires Inv(cfg, s) && uuid in cfg.raced && !cfg.staleReads && id in s.crs && !s.crs[id].deleting && uuid != ""
    requires s.crs[id].status.uuid == uuid && id.kind == NABSL
    requires var request, location := Ref(REQUEST, uuid), Ref(BSL, uuid);
             && request in s.owned && !s.owned[request].held
             && location in s.owned && Claimed(location, s.owned[location])
    ensures var t := DoRemove(s, Ref(REQUEST, uuid));
            && Reaches(cfg, s, t) && LiveLocation(t, uuid)
            && Unfrozen(cfg, t, uuid) && OwnersOk(cfg.reimports, t.crs, t.owned)
  {
    hide NamesOk, RequestsOk, PlainOk, DeletionsOk, VersionsOk, SyncLabelsOk, OwnUuids, CrsOk, LocationFields, IssuedNames, BackupsOk,
         Reaches;
    var t, ref := DoRemove(s, Ref(REQUEST, uuid)), Ref(BSL, uuid);
    StepReaches(cfg, s, Step(Actor.Collector, Remove(Ref(REQUEST, uuid))));
    StepKeepsInv(cfg, s, Step(Actor.Collector, Remove(Ref(REQUEST, uuid))));
    assert HasOwner(t.crs, ref, t.owned[ref]);
    HolderIsIssuedTo(cfg, t, OriginOf(NABSL, t.owned[ref]), uuid);
    CarrierIsIssuedTo(cfg, t, id);
    assert SourceOf(t.owned, uuid).None?;
    assert !LocationFrozen(cfg, t.crs, t.owned, ref, t.owned[ref]);
  }

  /** The race is open to every user and every spec that passes validation, from every reachable
      state: passes of the controller, one decision of the administrator and one list of the
      collector make a run at whose end the request of a living, served location is deleted
      although it is approved, and the location has no frozen spec to answer to any more; every
      location whose own request is not taken from an old list keeps its own. */
  lemma CollectorRaceUnfreezes(cfg: Config, s: Store, id: Id, spec: Spec, token1: string, token2: string, r: Race)
    requires Reachable(cfg, s) && CanRace(cfg, s, id, spec, token1) && IsRace(cfg, s, id, spec, token1, token2, r)
    ensures Reachable(cfg, r.listed) && Reaches(cfg, r.listed, r.asked) && Reaches(cfg, r.asked, r.approved)
    ensures Reaches(cfg, r.approved, r.served) && Reaches(cfg, r.served, r.collected) && Reachable(cfg, r.collected)
    ensures var request := Ref(REQUEST, Generated(id.ns, id.name, token1));
            && Collector.Doomed(cfg, r.listed, request) && !Collector.Doomed(cfg, r.served, request)
    ensures id in r.served.crs && Approval.Served(cfg, r.served, id) && r.served.crs[id].spec == spec
    ensures LiveLocation(r.collected, Generated(id.ns, id.name, token1))
    ensures Unfrozen(cfg, r.collected, Generated(id.ns, id.name, token1))
    ensures OwnersOk(cfg.reimports, r.collected.crs, r.collected.owned)
    ensures FrozenOk(cfg, r.collected.crs, r.collected.owned)
  {
    hide Inv, Reaches, Reachable, NabslPass.LocationError, NabslPass.Pass, Asked, Approval.Entering, LiveLocation, Unfrozen, FrozenOk,
         OwnersOk, Collector.Doomed, TokenFree, DoPut, DoCreate, DoRemove, Approval.Served;
    var uuid := Generated(id.ns, id.name, token1);
    GeneratedNameBounds(id.ns, id.name, token1);
    RaceAsks(cfg, s, id, spec, token1, token2, r);
    RaceIsApproved(cfg, r.asked, id, uuid, spec);
    ReachesOn(cfg, s, r.asked, r.approved);
    ReachesKeepsInv(cfg, s, r.approved);
    RaceIsServed(cfg, r.approved, id, uuid, spec, token2);
    ReachesOn(cfg, s, r.approved, r.served);
    ReachesKeepsInv(cfg, s, r.served);
    RaceUnfreezes(cfg, r.served, id, uuid);
    ReachesOn(cfg, s, r.served, r.collected);
    ReachableGoesOn(cfg, s, r.listed);
    ReachableGoesOn(cfg, s, r.collected);
    ReachesKeepsInv(cfg, s, r.collected);
    OthersStayFrozen(cfg, r.collected);
  }

  lemma OthersStayFrozen(cfg: Config, s: Store)
    requires Inv(cfg, s) && !cfg.staleReads && cfg.requireApproval
    ensures FrozenOk(cfg, s.crs, s.owned)
  {
  }

  // ---- The request of a location about to be served ----

  /** The second pass up to the Velero secret: what is left of it never looks at the request. */
  ghost function UpToSecret(cfg: Config, s: Store, id: Id, token: string): (t: Store)
    requires id in s.crs && |token| == UuidLength
    ensures id in t.crs
  {
    var s4 := NabslPass.RequestStep(cfg, Approval.Entering(cfg, s, id, token), id).store;
    var s6 := NabslPass.EnsureStep(cfg, FinalizerStep(s4, id).store, id).store;
    NabslPass.SecretStep(s6, id).store
  }

  /** As before, but the collector deletes while the second pass is under way: the request was
      found approved, the secret is written, the location is next. */
  datatype LateRace = LateRace(created: Store, listed: Store, asked: Store, approved: Store, ready: Store, collected: Store,
                               served: Store)

  ghost function LateToRace(cfg: Config, id: Id, token1: string, token2: string, r: LateRace): Race
    requires id in r.approved.crs && |token1| == |token2| == UuidLength
  {
    var undisturbed := NabslPass.Pass(cfg, r.approved, id, token2).store;
    Race(r.created, r.listed, r.asked, r.approved, undisturbed, DoRemove(undisturbed, Ref(REQUEST, Generated(id.ns, id.name, token1))))
  }

  ghost predicate IsLateRace(cfg: Config, s: Store, id: Id, spec: Spec, token1: string, token2: string, r: LateRace) {
    && |token1| == |token2| == UuidLength && id in r.approved.crs
    && IsRace(cfg, s, id, spec, token1, token2, LateToRace(cfg, id, token1, token2, r))
    && r.ready == UpToSecret(cfg, r.approved, id, token2)
    && r.collected == DoRemove(r.ready, Ref(REQUEST, Generated(id.ns, id.name, token1))) && id in r.collected.crs
    && r.served == NabslPass.LocationStep(cfg, r.collected, id).store
  }

  /** The view of a location that lacks nothing but the location itself. */
  predicate AlmostServed(v: Approval.View, spec: Spec) {
    v.secret.Some? && v.location.None? && v.request.Some? && v.cr.spec == spec && !v.cr.deleting && !v.request.value.held
  }

  lemma UpToSecretLeads(cfg: Config, s: Store, id: Id, uuid: string, spec: Spec, token: string)
    requires Asked(s, id, uuid, spec, Approve) && cfg.requireApproval && id.kind == NABSL && |token| == UuidLength
    requires NabslPass.LocationError(cfg, s.secrets, id.ns, spec.fields).None?
    ensures var t := UpToSecret(cfg, s, id, token);
            Approval.Leads(s, t, id, uuid, Approval.ViewOf(t, id)) && AlmostServed(Approval.ViewOf(t, id), spec)
    ensures var s3 := Approval.Entering(cfg, s, id, token);
            var s4 := NabslPass.RequestStep(cfg, s3, id).store;
            var o6 := NabslPass.EnsureStep(cfg, FinalizerStep(s4, id).store, id);
            && NabslPass.RequestStep(cfg, s3, id).outcome == Continue && o6.outcome == Continue
            && NabslPass.SecretStep(o6.store, id).outcome == Continue
  {
    hide Approval.Leads, Approval.ViewOf, LocationFields, NabslPass.LocationError, NabslPass.RequestStep, NabslPass.EnsureStep,
         NabslPass.SecretStep, NabslPass.DecisionStep, FinalizerStep, Approval.Entering, WithCondition, Approval.Entered;
    var v := Approval.ViewOf(s, id);
    var s3, v3 := Approval.Entering(cfg, s, id, token), Approval.Entered(v, id, token);
    Approval.StatusShown(s, s, id, uuid, v);
    Approval.EnterLeads(cfg, s, id, uuid, v, token);
    EnteredView(v, id, token);
    Approval.RequestLeads(cfg, s, s3, id, uuid, v3);
    var s4, v4 := NabslPass.RequestStep(cfg, s3, id).store, v3.(request := Some(Approval.Reviewed(cfg, v3.request.value)));
    Approval.FinalizerLeads(s, s4, id, uuid, v4);
    var s5, v5 := FinalizerStep(s4, id).store, v4.(cr := v4.cr.(finalizer := true));
    Approval.StatusShown(s, s5, id, uuid, v5);
    Approval.EnsureLeads(cfg, s, s5, id, uuid, v5);
    Approval.DecisionLeads(s, s5, id, uuid, v5, Approve);
    var s6 := NabslPass.DecisionStep(s5, id, Approve).store;
    var v6 := Approval.WithStatus(v5, WithCondition(v5.cr.status.(phase := New), AdminApproved, true, BslSpecApproved, NoMessage));
    Approval.SecretIsThere(cfg, s, id, spec.fields);
    Approval.StatusShown(s, s6, id, uuid, v6);
    Approval.SecretLeads(s, s6, id, uuid, v6, Approval.DataOf(s, id, spec.fields));
    var v7 := Approval.SecretAdded(v6, id, Approval.DataOf(s, id, spec.fields));
    Approval.ViewIs(s, NabslPass.SecretStep(s6, id).store, id, uuid, v7);
    assert UpToSecret(cfg, s, id, token) == NabslPass.SecretStep(s6, id).store;
  }

  lemma UpToSecretReaches(cfg: Config, s: Store, id: Id, token: string)
    requires Ready(cfg, s, id) && id.kind == NABSL && |token| == UuidLength && s.crs[id].status.uuid != ""
    requires var s4 := NabslPass.RequestStep(cfg, Approval.Entering(cfg, s, id, token), id).store;
             NabslPass.EnsureStep(cfg, FinalizerStep(s4, id).store, id).outcome == Continue
    ensures var t := UpToSecret(cfg, s, id, token); Reaches(cfg, s, t) && Held(cfg, t, id)
  {
    hide Inv, Reaches, NabslPass.RequestStep, NabslPass.EnsureStep, NabslPass.SecretStep, Approval.Entering, SpecMatches;
    var s3 := Approval.Entering(cfg, s, id, token);
    EnteringReaches(cfg, s, id, token);
    ReachesKeepsInv(cfg, s, s3);
    EnteredIsReady(cfg, s, id, token);
    var s4 := NabslPass.RequestStep(cfg, s3, id).store;
    RequestReaches(cfg, s3, id);
    ReachesOn(cfg, s, s3, s4);
    ReachesKeepsInv(cfg, s, s4);
    var s5 := FinalizerStep(s4, id).store;
    FinalizerReaches(cfg, s4, id);
    ReachesOn(cfg, s, s4, s5);
    ReachesKeepsInv(cfg, s, s5);
    var s6 := NabslPass.EnsureStep(cfg, s5, id).store;
    EnsureReaches(cfg, s5, id);
    ReachesOn(cfg, s, s5, s6);
    SecretReaches(cfg, s6, id);
    ReachesOn(cfg, s, s6, NabslPass.SecretStep(s6, id).store);
  }

  /** Undisturbed, the pass would go on to put the location and end well. */
  lemma PassGoesOn(cfg: Config, s: Store, id: Id, uuid: string, spec: Spec, token: string)
    requires Asked(s, id, uuid, spec, Approve) && cfg.requireApproval && id.kind == NABSL && |token| == UuidLength
    requires NabslPass.LocationError(cfg, s.secrets, id.ns, spec.fields).None?
    ensures var o8 := NabslPass.LocationStep(cfg, UpToSecret(cfg, s, id, token), id);
            o8.outcome == Continue && NabslPass.Pass(cfg, s, id, token) == NabslPass.MirrorStep(o8.store, id)
  {
    hide Approval.Leads, Approval.ViewOf, LocationFields, NabslPass.LocationError, NabslPass.RequestStep, NabslPass.EnsureStep,
         NabslPass.SecretStep, NabslPass.LocationStep, NabslPass.Pass, FinalizerStep, Approval.Entering;
    var t := UpToSecret(cfg, s, id, token);
    UpToSecretLeads(cfg, s, id, uuid, spec, token);
    Approval.StatusShown(s, s, id, uuid, Approval.ViewOf(s, id));
    Approval.PassIs(cfg, s, id, token);
    Approval.SecretIsThere(cfg, s, id, spec.fields);
    Approval.LocationLeads(cfg, s, t, id, uuid, Approval.ViewOf(t, id));
  }

  lemma RequestGoneLeads(s0: Store, s: Store, id: Id, uuid: string, v: Approval.View)
    requires Approval.Leads(s0, s, id, uuid, v) && v.request.Some? && !v.request.value.held
    ensures var t := DoRemove(s, Ref(REQUEST, uuid));
            && t.crs == s.crs && Ref(REQUEST, uuid) !in t.owned && Approval.Leads(s0, t, id, uuid, v.(request := None))
  {
    var t := DoRemove(s, Ref(REQUEST, uuid));
    Approval.SameElsewhereTrans(s0, s, t, id, uuid);
  }

  /** With its request gone the pass puts the location all the same. */
  lemma ServedWithoutRequest(cfg: Config, s0: Store, s: Store, id: Id, uuid: string, v: Approval.View)
    requires Approval.Leads(s0, s, id, uuid, v) && id.kind == NABSL && v.secret.Some? && v.request.None? && !v.cr.deleting
    requires Credential in v.cr.spec.fields && Held(cfg, s, id) && uuid in cfg.raced
    ensures var t := NabslPass.LocationStep(cfg, s, id).store;
            && NabslPass.LocationStep(cfg, s, id).outcome == Continue
            && Reaches(cfg, s, t) && Unfrozen(cfg, t, uuid) && Alive(t.crs, id) && Holds(t.crs, id, uuid)
  {
    hide Inv, Reaches, Approval.Leads, Approval.ViewOf, LocationFields, NabslPass.LocationStep;
    var t, w := NabslPass.LocationStep(cfg, s, id).store, Approval.LocationAdded(cfg, v, id);
    Approval.StatusShown(s0, s, id, uuid, v);
    Approval.LocationLeads(cfg, s0, s, id, uuid, v);
    LocationReaches(cfg, s, id);
    ReachesKeepsInv(cfg, s, t);
    Approval.ViewIs(s0, t, id, uuid, w);
    Approval.LeadsItself(s0, t, id, uuid, w);
    Approval.StatusShown(s0, t, id, uuid, w);
    Approval.Stored(t, id, uuid, w, REQUEST);
    Approval.Stored(t, id, uuid, w, BSL);
    Approval.LocationAddedFacts(cfg, v, id);
    ViewDeleting(t, id, w);
    NothingToAnswerTo(cfg, t, id, uuid);
  }

  lemma NothingToAnswerTo(cfg: Config, t: Store, id: Id, uuid: string)
    requires Held(cfg, t, id) && id.kind == NABSL && t.crs[id].status.uuid == uuid && Alive(t.crs, id)
    requires Ref(REQUEST, uuid) !in t.owned
    requires Ref(BSL, uuid) in t.owned && LabelledWith(NABSL, t.owned[Ref(BSL, uuid)], uuid)
    ensures Unfrozen(cfg, t, uuid)
  {
    hide NamesOk, RequestsOk, PlainOk, DeletionsOk, VersionsOk, SyncLabelsOk, OwnUuids, CrsOk, LocationFields, IssuedNames, BackupsOk,
         FrozenOk;
    var ref := Ref(BSL, uuid);
    assert HasOwner(t.crs, ref, t.owned[ref]);
    HolderIsIssuedTo(cfg, t, OriginOf(NABSL, t.owned[ref]), uuid);
    CarrierIsIssuedTo(cfg, t, id);
    assert SourceOf(t.owned, uuid).None?;
  }

  /** From the approval on. */
  lemma RequestIsTaken(cfg: Config, s: Store, id: Id, uuid: string, spec: Spec, token: string)
    requires Asked(s, id, uuid, spec, Approve) && Inv(cfg, s) && !cfg.staleReads && cfg.requireApproval && uuid in cfg.raced
    requires id.kind == NABSL && |token| == UuidLength
    requires NabslPass.LocationError(cfg, s.secrets, id.ns, spec.fields).None?
    ensures var ready, request := UpToSecret(cfg, s, id, token), Ref(REQUEST, uuid);
            var gone := DoRemove(ready, request);
            && Reaches(cfg, s, ready) && Reaches(cfg, ready, gone) && id in gone.crs
            && request in ready.owned && request !in gone.owned && !LiveLocation(gone, uuid)
            && var o8 := NabslPass.LocationStep(cfg, gone, id); Reaches(cfg, gone, o8.store) && Unfrozen(cfg, o8.store, uuid)
    ensures var o8 := NabslPass.LocationStep(cfg, UpToSecret(cfg, s, id, token), id);
            NabslPass.Pass(cfg, s, id, token) == NabslPass.MirrorStep(o8.store, id)
  {
    hide Inv, Reaches, NabslPass.LocationError, NabslPass.Pass, Unfrozen, DoRemove, UpToSecret, NabslPass.LocationStep,
         NabslPass.MirrorStep, Approval.Leads, Approval.ViewOf, NabslPass.RequestStep, NabslPass.EnsureStep, Approval.Entering;
    var ready := UpToSecret(cfg, s, id, token);
    var v := Approval.ViewOf(ready, id);
    Approval.StatusShown(s, s, id, uuid, Approval.ViewOf(s, id));
    UpToSecretLeads(cfg, s, id, uuid, spec, token);
    UpToSecretReaches(cfg, s, id, token);
    PassGoesOn(cfg, s, id, uuid, spec, token);
    Approval.SecretIsThere(cfg, s, id, spec.fields);
    Approval.StatusShown(s, ready, id, uuid, v);
    Approval.LeadsItself(s, ready, id, uuid, v);
    Approval.Stored(ready, id, uuid, v, REQUEST);
    RequestGoneLeads(s, ready, id, uuid, v);
    var gone := DoRemove(ready, Ref(REQUEST, uuid));
    StepReaches(cfg, ready, Step(Actor.Collector, Remove(Ref(REQUEST, uuid))));
    ReachesKeepsInv(cfg, ready, gone);
    Approval.LeadsItself(s, gone, id, uuid, v.(request := None));
    Approval.Stored(gone, id, uuid, v.(request := None), BSL);
    ServedWithoutRequest(cfg, s, gone, id, uuid, v.(request := None));
  }

  /** The second race: the location is not there yet when its approved request goes, so nothing is
      unfrozen at that moment; but the pass is past the request, and the location it puts next
      belongs to a living owner and never had a frozen spec. */
  lemma CollectorRaceBeforeServing(cfg: Config, s: Store, id: Id, spec: Spec, token1: string, token2: string, r: LateRace)
    requires Reachable(cfg, s) && CanRace(cfg, s, id, spec, token1) && IsLateRace(cfg, s, id, spec, token1, token2, r)
    ensures Reachable(cfg, r.listed) && Reaches(cfg, r.listed, r.asked) && Reaches(cfg, r.asked, r.approved)
    ensures Reaches(cfg, r.approved, r.ready) && Reaches(cfg, r.ready, r.collected) && Reaches(cfg, r.collected, r.served)
    ensures Reachable(cfg, r.served)
    ensures var request := Ref(REQUEST, Generated(id.ns, id.name, token1));
            Collector.Doomed(cfg, r.listed, request) && request in r.ready.owned && request !in r.collected.owned
    ensures !LiveLocation(r.collected, Generated(id.ns, id.name, token1)) && Unfrozen(cfg, r.served, Generated(id.ns, id.name, token1))
    ensures var o8 := NabslPass.LocationStep(cfg, r.ready, id);
            NabslPass.Pass(cfg, r.approved, id, token2) == NabslPass.MirrorStep(o8.store, id)
  {
    hide Inv, Reaches, Reachable, NabslPass.LocationError, NabslPass.Pass, Asked, Approval.Entering, LiveLocation, Unfrozen,
         Collector.Doomed, TokenFree, DoPut, DoCreate, DoRemove, UpToSecret, NabslPass.LocationStep, NabslPass.MirrorStep,
         Approval.Leads, Approval.ViewOf, NabslPass.RequestStep, NabslPass.EnsureStep;
    var uuid := Generated(id.ns, id.name, token1);
    GeneratedNameBounds(id.ns, id.name, token1);
    RaceAsks(cfg, s, id, spec, token1, token2, LateToRace(cfg, id, token1, token2, r));
    RaceIsApproved(cfg, r.asked, id, uuid, spec);
    ReachesOn(cfg, s, r.asked, r.approved);
    ReachesKeepsInv(cfg, s, r.approved);
    RequestIsTaken(cfg, r.approved, id, uuid, spec, token2);
    ReachesOn(cfg, s, r.approved, r.ready);
    ReachesOn(cfg, s, r.ready, r.collected);
    ReachesOn(cfg, s, r.collected, r.served);
    ReachableGoesOn(cfg, s, r.listed);
    ReachableGoesOn(cfg, s, r.served);
  }

  // ---- A backup that has come back ----

  /** Velero has brought back a backup whose object is gone: the collector lists it and does not
      find its origin; the synchronizer rebuilds the object; the backup controller takes it up. */
  ghost predicate BringsBack(cfg: Config, s: Store, id: Id, uuid: string, spec: Spec, token: string, rebuilt: Store, owned: Store) {
    && Ref(BACKUP, uuid) in s.owned && Synchronizer.NeedsSync(s, Ref(BACKUP, uuid)) && id !in s.crs && |token| == UuidLength
    && s.owned[Ref(BACKUP, uuid)].annotations == OwnerAnnotations(id)
    && LabelledWith(NAB, s.owned[Ref(BACKUP, uuid)], uuid) && !s.owned[Ref(BACKUP, uuid)].held
    && rebuilt == DoCreate(s, id, spec, Some(uuid)) && id in rebuilt.crs
    && owned == NabPass.SyncPass(cfg, rebuilt, id, token).store
  }

  /** Between the collector's Get and its Delete such a backup has got its owner back, who has
      recorded it as created, and loses it: here the gap does harm. */
  lemma CollectorTakesReturnedBackup(cfg: Config, s: Store, id: Id, uuid: string, spec: Spec, token: string, rebuilt: Store, owned: Store)
    requires Reachable(cfg, s) && !cfg.staleReads && id.kind == NAB && id.ns != "" && id.name != "" && TokenFree(s, token)
    requires BringsBack(cfg, s, id, uuid, spec, token, rebuilt, owned)
    ensures Reaches(cfg, s, rebuilt) && Reaches(cfg, rebuilt, owned)
    ensures Collector.Doomed(cfg, s, Ref(BACKUP, uuid)) && !Collector.Doomed(cfg, owned, Ref(BACKUP, uuid))
    ensures Held(cfg, owned, id) && owned.crs[id].status.uuid == uuid && owned.crs[id].status.phase == Created
    ensures Ref(BACKUP, uuid) in owned.owned
    ensures var t := DoRemove(owned, Ref(BACKUP, uuid));
            Reachable(cfg, t) && Ref(BACKUP, uuid) !in t.owned && t.crs == owned.crs
  {
    hide Inv, Reaches, Reachable, TokenFree, NabPass.SyncPass, Synchronizer.Watched, Found;
    var ref := Ref(BACKUP, uuid);
    ReachableKeepsInv(cfg, s);
    Synchronizer.OriginIsKey(s, ref);
    Synchronizer.MissingMayBeCreated(cfg, s, ref, spec);
    StepReaches(cfg, s, Step(Actor.Synchronizer, Create(id, spec, Some(uuid))));
    ReachesKeepsInv(cfg, s, rebuilt);
    TokenStays(s, rebuilt, token);
    ObjectRuns.SyncPassReaches(cfg, rebuilt, id, token);
    ReachesKeepsInv(cfg, rebuilt, owned);
    OneBackupFound(cfg, rebuilt, uuid);
    Synchronizer.ReturnedIsRecorded(cfg, rebuilt, id, uuid, token);
    StepReaches(cfg, owned, Step(Actor.Collector, Remove(ref)));
    ReachesOn(cfg, s, rebuilt, owned);
    ReachesOn(cfg, s, owned, DoRemove(owned, ref));
    ReachableGoesOn(cfg, s, DoRemove(owned, ref));
  }

  lemma TokenStays(s: Store, t: Store, token: string)
    requires TokenFree(s, token) && t.owned == s.owned && t.issued == s.issued
    ensures TokenFree(t, token)
  {
  }

  lemma OneBackupFound(cfg: Config, s: Store, uuid: string)
    requires Inv(cfg, s) && Ref(BACKUP, uuid) in s.owned && LabelledWith(NAB, s.owned[Ref(BACKUP, uuid)], uuid)
    ensures Found(s, BACKUP, uuid) == {Ref(BACKUP, uuid)}
  {
    hide Inv;
    AtMostOneFound(cfg, s, BACKUP, uuid);
    assert Ref(BACKUP, uuid) in Found(s, BACKUP, uuid);
  }

  function Racing(uuid: string): Config {
    Config([], map[], map[], map[], 120, None, true, false, {uuid}, true)
  }

  /** Nothing is in the way of the race: in a cluster that holds nothing but the user's secret
      any object name will do, with a spec that names the secret. */
  lemma RaceIsOpen(id: Id, secret: string, data: int, token1: string)
    requires id.kind == NABSL && id.ns != "" && id.name != "" && secret != "" && |token1| == UuidLength
    ensures var s := Store(0, 1, map[], map[], map[], {id.ns}, map[(id.ns, secret) := data]);
            var spec := Spec(map[Credential := SecretKey(secret, "cloud")], false);
            var cfg := Racing(Generated(id.ns, id.name, token1));
            Reachable(cfg, s) && CanRace(cfg, s, id, spec, token1)
  {
    var s := Store(0, 1, map[], map[], map[], {id.ns}, map[(id.ns, secret) := data]);
    var cfg := Racing(Generated(id.ns, id.name, token1));
    assert IsRun(cfg, [s], []);
    RunKeepsInv(cfg, [s], [], 0);
    assert Agrees(cfg.enforcedLocation, map[Credential := SecretKey(secret, "cloud")]);
    NabslPass.LocationSpecValidIff(cfg, s.secrets, id.ns, map[Credential := SecretKey(secret, "cloud")]);
  }
}
