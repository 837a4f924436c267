/**
 What a pass over a location leaves, said of the stored objects themselves: what the status
 says, what is in the request, the secret and the Velero location, case by case.
 */
module LocationOutcomes {
  import opened Objects
  import opened Specs
  import opened Cluster
  import opened Protocol
  import opened Interference
  import opened ApiClient
  import opened NabslPass
  import opened Steps
  import opened Naming
  import opened Approval
  import opened Reach
  import opened LocationRuns

  /** A location spec that breaks any rule ends the pass there. */
  lemma InvalidLocationIsRejected(cfg: Config, s: Store, id: Id, token: string)
    requires ValidConfig(cfg) && id in s.crs && |token| == UuidLength
    requires !FineLocationSpec(cfg, s.secrets, id.ns, s.crs[id].spec.fields)
    ensures var out := Pass(cfg, s, id, token);
            out.outcome == Failed && IsRejected(s, out.store, id, BslSpecValidation)
  {
    hide LocationError, FineLocationSpec, DoWriteStatus, RequestStep, FinalizerStep, EnsureStep, SecretStep, LocationStep,
         MirrorStep, UuidStep;
    LocationSpecValidIff(cfg, s.secrets, id.ns, s.crs[id].spec.fields);
    StatusWritten(s, id, s.crs[id].status.(phase := New));
    var s1 := InitStep(s, id).store;
    var m := LocationError(cfg, s1.secrets, id.ns, s1.crs[id].spec.fields).value;
    StatusWritten(s1, id, WithCondition(s1.crs[id].status.(phase := BackingOff), Accepted, false, BslSpecValidation, m));
    var t := Pass(cfg, s, id, token).store;
    forall i: Id | i != id ensures SameCr(s, t, i) {
      assert SameCr(s, s1, i) && SameCr(s1, t, i);
    }
  }

  /** A pass over a location without request makes one: it asks for the decision, or, when none
      is required, has it, and it records what was asked for by whom. */
  lemma FirstPassAsks(cfg: Config, s: Store, id: Id, token: string)
    requires CanPass(cfg, s, id, token)
    requires s.crs[id].status.uuid == "" || Ref(REQUEST, s.crs[id].status.uuid) !in s.owned
    ensures var out := Pass(cfg, s, id, token);
            var t, st, was := out.store, out.store.crs[id].status, s.crs[id].status;
            var uuid := if was.uuid == "" then Generated(id.ns, id.name, token) else was.uuid;
            && out.outcome == Requeue && st.uuid == uuid && st.phase == (if was.phase == Unset then New else was.phase)
            && Says(st, Accepted, true, BslSpecValidation)
            && Ref(REQUEST, uuid) in t.owned
            && t.owned[Ref(REQUEST, uuid)].body
               == Request(if cfg.requireApproval then Decision.Pending else Approve,
                          if cfg.requireApproval then PhasePending else PhaseApproved,
                          Some(Source(uuid, id, s.crs[id].spec.fields)))
            && (forall ref: Ref | ref.kind == SECRET || ref.kind == BSL ::
                  (ref in t.owned <==> ref in s.owned) && (ref in s.owned ==> t.owned[ref] == s.owned[ref]))
  {
    hide Inv, LocationError, Pass, RequestStep, Entering, TokenFree, Reaches, DoPut, EndsWith;
    PassIs(cfg, s, id, token);
    EnteringStatus(cfg, s, id, token);
    var s3 := Entering(cfg, s, id, token);
    var ref := Ref(REQUEST, s3.crs[id].status.uuid);
    if s.crs[id].status.uuid == "" {
      GeneratedNameBounds(id.ns, id.name, token);
      FreshIsTidy(cfg, s, token, ref.name);
    }
    EnteringReaches(cfg, s, id, token);
    ReachesKeepsInv(cfg, s, s3);
    RequestCreationReaches(cfg, s3, id);
    TwoPuts(s3, ref);
  }

  lemma TwoPuts(s: Store, ref: Ref)
    ensures forall o1: Owned, o2: Owned | ref !in s.owned ::
              var t := DoPut(DoPut(s, ref, o1), ref, o2);
              && ref in DoPut(s, ref, o1).owned && DoPut(s, ref, o1).owned[ref].body == o1.body
              && ref in t.owned && t.owned[ref].body == o2.body
              && (forall r: Ref | r != ref :: (r in t.owned <==> r in s.owned) && (r in s.owned ==> t.owned[r] == s.owned[r]))
  {
  }

  /** The status after the first three steps, and nothing else. */
  lemma EnteringStatus(cfg: Config, s: Store, id: Id, token: string)
    requires id in s.crs && |token| == UuidLength
    requires LocationError(cfg, s.secrets, id.ns, s.crs[id].spec.fields).None?
    ensures var t, was := Entering(cfg, s, id, token), s.crs[id].status;
            var st := t.crs[id].status;
            && t.owned == s.owned && t.crs[id].spec == s.crs[id].spec
            && st.uuid == (if was.uuid == "" then Generated(id.ns, id.name, token) else was.uuid)
            && st.phase == (if was.phase == Unset then New else was.phase)
            && Says(st, Accepted, true, BslSpecValidation)
  {
    hide LocationError, DoWriteStatus, Generated;
    StatusWritten(s, id, s.crs[id].status.(phase := New));
    var s1 := InitStep(s, id).store;
    StatusWritten(s1, id, WithCondition(s1.crs[id].status, Accepted, true, BslSpecValidation, NoMessage));
    var s2 := ValidateStep(cfg, s1, id).store;
    StatusWritten(s2, id, s2.crs[id].status.(uuid := Generated(id.ns, id.name, token)));
  }

  // ---- With a request that has its source ----

  predicate Unsays(st: Status, t: ConditionType) {
    t !in st.conds
  }

  /** What is kept of an approved location's own objects. */
  ghost predicate IsProvided(cfg: Config, id: Id, uuid: string, fields: Fields, data: int, was: View, now: View) {
    && now.secret.Some? && now.secret.value.body == Credentials(data)
    && now.location.Some? && now.location.value.body.Location?
    && LocationAsAsked(now.location.value.body.fields, cfg.enforcedLocation, fields, id.ns, uuid)
    && (was.secret.None? ==> Says(now.cr.status, SecretSynced, true, SecretCreated))
    && (was.secret.Some? && was.secret.value.body != Credentials(data) ==> Says(now.cr.status, SecretSynced, true, SecretUpdated))
    && (was.location.None? ==> Says(now.cr.status, BslSynced, true, BslCreated))
    && (was.location.Some? && was.location.value.body != now.location.value.body ==> Says(now.cr.status, BslSynced, true, BslUpdated))
  }

  /** The health in the status is the location's. */
  predicate ShowsHealth(st: Status, location: Body) {
    location.Location? &&
    (if st.mirror.Some? then st.mirror.value else Location(map[], false, 0))
    == Location(map[], location.available, location.health)
  }

  /** What the status says after the decision, and what there is. */
  ghost predicate FollowsTheDecision(cfg: Config, id: Id, decision: Decision, data: int, was: View, now: View) {
    var st := now.cr.status;
    match decision
    case Approve =>
      && st.phase == Created && Says(st, AdminApproved, true, BslSpecApproved)
      && IsProvided(cfg, id, st.uuid, now.cr.spec.fields, data, was, now)
      && now.location.Some? && ShowsHealth(st, now.location.value.body)
    case Reject =>
      && st.phase == BackingOff && Says(st, AdminApproved, false, BslSpecRejected)
      && now.secret.None? && now.location.None? && Unsays(st, SecretSynced) && Unsays(st, BslSynced)
    case OtherDecision(_) =>
      && st.phase == BackingOff && Says(st, AdminApproved, false, BslSpecInvalid)
      && now.secret.None? && now.location.None? && Unsays(st, SecretSynced) && Unsays(st, BslSynced)
    case _ =>
      && st.phase == New && Says(st, AdminApproved, false, BslSpecApprovalPending)
      && now.secret.None? && now.location.None? && Unsays(st, SecretSynced) && Unsays(st, BslSynced)
  }

  /** The request's phase says which decision was found; with approval off the decision is then
      to approve. */
  predicate IsReviewed(cfg: Config, was: Body, now: Body) {
    && was.Request? && now.Request? && now.source == was.source
    && now.decision == (if cfg.requireApproval then was.decision else Approve)
    && (was.decision == Approve <==> now.phase == PhaseApproved)
    && (was.decision == Reject <==> now.phase == PhaseRejected)
    && (was.decision != Approve && was.decision != Reject ==> now.phase == PhasePending)
  }

  lemma ReviewedIsSo(cfg: Config, o: Owned)
    requires o.body.Request?
    ensures IsReviewed(cfg, o.body, Reviewed(cfg, o).body)
  {
  }

  lemma SecretIsSo(v: View, id: Id, data: int)
    ensures var w, st := SecretAdded(v, id, data), SecretAdded(v, id, data).cr.status;
            && w.secret.Some? && w.secret.value.body == Credentials(data) && w == WithStatus(v.(secret := w.secret), st)
            && st == v.cr.status.(conds := st.conds)
            && (v.secret.None? ==> Says(st, SecretSynced, true, SecretCreated))
            && (v.secret.Some? && v.secret.value.body != Credentials(data) ==> Says(st, SecretSynced, true, SecretUpdated))
            && (forall t | t != SecretSynced && t in v.cr.status.conds :: t in st.conds && st.conds[t] == v.cr.status.conds[t])
  {
  }

  lemma LocationIsSo(cfg: Config, v: View, id: Id)
    ensures var w, st := LocationAdded(cfg, v, id), LocationAdded(cfg, v, id).cr.status;
            && w.location.Some? && w.location.value.body.Location?
            && w.location.value.body.fields == LocationFields(cfg.enforcedLocation, v.cr.spec.fields, id.ns, v.cr.status.uuid)
            && w == WithStatus(v.(location := w.location), st) && st == v.cr.status.(conds := st.conds, phase := Created)
            && (v.location.None? ==> Says(st, BslSynced, true, BslCreated))
            && (v.location.Some? && v.location.value.body != w.location.value.body ==> Says(st, BslSynced, true, BslUpdated))
            && (forall t | t != BslSynced && t in v.cr.status.conds :: t in st.conds && st.conds[t] == v.cr.status.conds[t])
  {
    hide LocationFields;
  }

  lemma ProvidedIsSo(cfg: Config, x: View, id: Id, data: int)
    ensures FollowsTheDecision(cfg, id, Approve, data, x, Provided(cfg, x, id, data))
  {
    hide LocationFields, SecretAdded, LocationAdded, HealthMirrored, LocationAsAsked;
    var a0 := WithStatus(x, WithCondition(x.cr.status.(phase := New), AdminApproved, true, BslSpecApproved, NoMessage));
    SecretIsSo(a0, id, data);
    var a1 := SecretAdded(a0, id, data);
    LocationIsSo(cfg, a1, id);
    HealthIsShown(LocationAdded(cfg, a1, id));
    LocationIsAsAsked(cfg.enforcedLocation, x.cr.spec.fields, id.ns, x.cr.status.uuid);
  }

  lemma HealthIsShown(v: View)
    requires v.location.Some? && v.location.value.body.Location?
    ensures var w := HealthMirrored(v);
            && ShowsHealth(w.cr.status, v.location.value.body) && w == WithStatus(v, w.cr.status)
            && w.cr.status == v.cr.status.(mirror := w.cr.status.mirror)
  {
  }

  lemma RefusedIsSo(cfg: Config, x: View, id: Id, decision: Decision, data: int)
    requires decision != Approve
    ensures var phase := if decision == NoDecision || decision == Decision.Pending then New else BackingOff;
            FollowsTheDecision(cfg, id, decision, data, x,
                               Rejected(x, WithCondition(x.cr.status.(phase := phase), AdminApproved, false, ReasonFor(decision), NoMessage)))
  {
  }

  lemma FollowedIsSo(cfg: Config, v: View, id: Id, data: int)
    requires HasSource(v, v.cr.status.uuid)
    ensures var w, body := Passed(cfg, v, id, data), v.request.value.body;
            && w.request.Some? && IsReviewed(cfg, body, w.request.value.body)
            && (if body.source.value.fields != v.cr.spec.fields then
                  && Says(w.cr.status, SpecUpdateApproved, false, BslSpecUpdateRejected)
                  && w.secret == v.secret && w.location == v.location && w.cr.status.phase == v.cr.status.phase
                else FollowsTheDecision(cfg, id, w.request.value.body.decision, data, v, w))
            && w.cr.finalizer
  {
    hide LocationFields, Provided, Rejected, ReasonFor, IsReviewed, Reviewed, FollowsTheDecision;
    var o := Reviewed(cfg, v.request.value);
    ReviewedIsSo(cfg, v.request.value);
    var x := v.(cr := v.cr.(finalizer := true), request := Some(o));
    FollowedKeeps(cfg, v, id, data);
    ReviewKeepsSource(cfg, v.request.value);
    if o.body.source.value.fields == v.cr.spec.fields {
      SameAllButRequest(cfg, id, o.body.decision, data, v, x, Passed(cfg, v, id, data));
      if o.body.decision == Approve {
        ProvidedIsSo(cfg, x, id, data);
      } else {
        RefusedIsSo(cfg, x, id, o.body.decision, data);
      }
    }
  }

  lemma ReviewKeepsSource(cfg: Config, o: Owned)
    requires o.body.Request?
    ensures Reviewed(cfg, o).body.Request? && Reviewed(cfg, o).body.source == o.body.source
  {
  }

  /** Only secret and location of the view before are looked at. */
  lemma SameAllButRequest(cfg: Config, id: Id, decision: Decision, data: int, v: View, x: View, w: View)
    requires v.secret == x.secret && v.location == x.location
    ensures FollowsTheDecision(cfg, id, decision, data, v, w) == FollowsTheDecision(cfg, id, decision, data, x, w)
  {
  }

  /** A pass over a location whose request has its source: the request is reviewed, a spec other
      than the recorded one is refused and changes nothing, and otherwise status, secret and
      location are what the decision asks for, with the user's own secret. */
  lemma PassFollowsRequest(cfg: Config, s: Store, id: Id, token: string)
    requires CanPass(cfg, s, id, token) && s.crs[id].status.uuid != ""
    requires ViewOf(s, id).request.Some? && !HalfInitialised(s, id)
    ensures var t, fields := Pass(cfg, s, id, token).store, s.crs[id].spec.fields;
            var v, w := ViewOf(s, id), ViewOf(t, id);
            && Credential in fields && fields[Credential].SecretKey? && (id.ns, fields[Credential].secret) in s.secrets
            && w.request.Some? && IsReviewed(cfg, v.request.value.body, w.request.value.body)
            && w.cr.finalizer && w.cr.spec == v.cr.spec && w.cr.status.uuid == v.cr.status.uuid
            && Says(w.cr.status, Accepted, true, BslSpecValidation)
            && (if w.request.value.body.source.value.fields != fields then
                  && Says(w.cr.status, SpecUpdateApproved, false, BslSpecUpdateRejected)
                  && w.secret == v.secret && w.location == v.location
                else FollowsTheDecision(cfg, id, w.request.value.body.decision, s.secrets[(id.ns, fields[Credential].secret)], v, w))
  {
    hide Inv, LocationError, Pass, Leads, Passed, Entered, FollowsTheDecision, IsReviewed, ViewOf;
    var uuid, v := s.crs[id].status.uuid, ViewOf(s, id);
    ReachableIsTidy(cfg, s, id);
    ReachableHasSource(cfg, s, id);
    StatusShown(s, s, id, uuid, v);
    SecretIsThere(cfg, s, id, v.cr.spec.fields);
    PassLeads(cfg, s, id, uuid, v, token);
    var t, data := Pass(cfg, s, id, token).store, DataOf(s, id, v.cr.spec.fields);
    var v1 := Entered(v, id, token);
    EnteredViewIs(v, id, token);
    FollowedIsSo(cfg, v1, id, data);
    FollowedKeeps(cfg, v1, id, data);
    SameAllButRequest(cfg, id, Passed(cfg, v1, id, data).request.value.body.decision, data, v, v1, Passed(cfg, v1, id, data));
    ViewIs(s, t, id, uuid, Passed(cfg, v1, id, data));
  }

  lemma ReachableHasSource(cfg: Config, s: Store, id: Id)
    requires Inv(cfg, s) && !cfg.staleReads && id in s.crs
    requires s.crs[id].status.uuid != "" && ViewOf(s, id).request.Some? && !HalfInitialised(s, id)
    ensures HasSource(ViewOf(s, id), s.crs[id].status.uuid)
  {
    hide Inv, Leads, LocationError;
    ReachableIsTidy(cfg, s, id);
  }

  lemma EnteredViewIs(v: View, id: Id, token: string)
    requires |token| == UuidLength && v.cr.status.uuid != ""
    ensures var w := Entered(v, id, token);
            && w.request == v.request && w.secret == v.secret && w.location == v.location && w.cr.spec == v.cr.spec
            && w.cr.status.uuid == v.cr.status.uuid && HasAccepted(w.cr.status)
  {
  }

  // ---- Single steps in states a reachable one only gets to with others' help ----

  /** Without its one request the pass fails; over a request made for another NACUUID, or with
      none recorded, it takes back what it may have given. */
  lemma ForeignRequestIsNotFollowed(cfg: Config, s: Store, id: Id)
    requires id in s.crs && s.crs[id].status.uuid != ""
    ensures Found(s, REQUEST, s.crs[id].status.uuid) == {} ==> EnsureStep(cfg, s, id) == Out(s, Failed)
    ensures forall ref | Found(s, REQUEST, s.crs[id].status.uuid) == {ref} && s.owned[ref].body.Request? ::
              var source, t := s.owned[ref].body.source, EnsureStep(cfg, s, id).store;
              source.Some? && source.value.fields == s.crs[id].spec.fields && source.value.uuid != s.crs[id].status.uuid
              && |Found(s, SECRET, s.crs[id].status.uuid)| <= 1 ==>
                && EnsureStep(cfg, s, id).outcome == Failed
                && t.crs[id].status.phase == BackingOff && Says(t.crs[id].status, AdminApproved, false, BslSpecUpdateRejected)
                && Unsays(t.crs[id].status, SecretSynced) && Unsays(t.crs[id].status, BslSynced)
  {
    hide Found, DoWriteStatus, Dropped, DecisionStep;
    var st := s.crs[id].status;
    forall ref { OnlyMember(ref); }
    var now := WithCondition(st.(phase := BackingOff), AdminApproved, false, BslSpecUpdateRejected, NoMessage);
    StatusWritten(Dropped(Dropped(s, SECRET, st.uuid), BSL, st.uuid), id, WithoutCondition(WithoutCondition(now, SecretSynced), BslSynced));
  }

  /** A user's secret that is gone stops the pass, and without Velero's secret no location is made. */
  lemma NothingWithoutSecret(cfg: Config, s: Store, id: Id)
    requires id in s.crs && s.crs[id].status.uuid != ""
    requires Credential in s.crs[id].spec.fields && s.crs[id].spec.fields[Credential].SecretKey?
    requires s.crs[id].spec.fields[Credential].secret != ""
    ensures (id.ns, s.crs[id].spec.fields[Credential].secret) !in s.secrets ==> SecretStep(s, id) == Out(s, Failed)
    ensures Found(s, SECRET, s.crs[id].status.uuid) == {} && |Found(s, BSL, s.crs[id].status.uuid)| <= 1 ==>
              LocationStep(cfg, s, id) == Out(s, Continue)
  {
    hide Found;
  }
}
