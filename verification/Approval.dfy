/**
 Where undisturbed passes over one location lead: they stabilise after two, and with the
 approved spec the secret and the Velero location are there exactly when the administrator's
 decision is to approve.  Also how a request left half-initialised by a crash heals.
 */
module Approval {
  import opened Objects
  import opened Specs
  import opened Cluster
  import opened Protocol
  import opened Interference
  import opened ApiClient
  import opened NabslPass
  import opened Steps
  import opened Naming
  import Collector

  // ---- What a pass looks at, without versions ----

  datatype View = View(cr: Cr, request: Option<Owned>, secret: Option<Owned>, location: Option<Owned>)

  function At(owned: Objs, kind: OwnedKind, uuid: string): Option<Owned> {
    var ref := Ref(kind, uuid);
    if uuid != "" && ref in owned then Some(owned[ref].(rv := 0)) else None
  }

  function ViewOf(s: Store, id: Id): View
    requires id in s.crs
  {
    var c := s.crs[id].(rv := 0);
    View(c, At(s.owned, REQUEST, c.status.uuid), At(s.owned, SECRET, c.status.uuid), At(s.owned, BSL, c.status.uuid))
  }

  predicate Mine(ref: Ref, uuid: string) {
    ref.name == uuid && ref.kind in {REQUEST, SECRET, BSL}
  }

  /** Nothing but the view differs. */
  ghost predicate SameElsewhere(s: Store, t: Store, id: Id, uuid: string) {
    && t.clock == s.clock && t.namespaces == s.namespaces && t.secrets == s.secrets
    && (forall i: Id | i != id :: SameCr(s, t, i))
    && (forall ref: Ref | !Mine(ref, uuid) ::
          (ref in s.owned <==> ref in t.owned) && (ref in s.owned ==> s.owned[ref] == t.owned[ref]))
  }

  /** Labels and names agree for this NACUUID, and the objects are of the kinds they should be. */
  ghost predicate Tidy(owned: Objs, uuid: string) {
    forall ref: Ref | ref in owned && ref.kind in {REQUEST, SECRET, BSL} ::
      && (LabelledWith(NABSL, owned[ref], uuid) <==> ref.name == uuid)
      && (ref.name == uuid ==>
            match ref.kind
            case REQUEST => owned[ref].body.Request?
            case BSL => owned[ref].body.Location? && !owned[ref].held
            case _ => !owned[ref].held)
  }

  // ---- The pass on views ----

  function WithStatus(v: View, st: Status): View {
    v.(cr := v.cr.(status := st))
  }

  /** The steps up to the NACUUID. */
  function Entered(v: View, id: Id, token: string): View
    requires |token| == UuidLength
  {
    var st := v.cr.status;
    var st1 := WithCondition(if st.phase == Unset then st.(phase := New) else st, Accepted, true, BslSpecValidation, NoMessage);
    WithStatus(v, if st1.uuid == "" then st1.(uuid := Generated(id.ns, id.name, token)) else st1)
  }

  function Requested(cfg: Config, v: View, id: Id): View {
    var uuid := v.cr.status.uuid;
    var decision := if cfg.requireApproval then Decision.Pending else Approve;
    var o := NewObject(id, uuid, Request(decision, NoPhase, None));
    v.(request := Some(SourceRecorded(o, Source(uuid, id, v.cr.spec.fields), decision)))
  }

  function Reviewed(cfg: Config, o: Owned): Owned {
    if cfg.requireApproval then PhaseUpdated(o) else Decided(PhaseUpdated(o), Approve)
  }

  function Rejected(v: View, st: Status): View {
    v.(cr := v.cr.(status := WithoutCondition(WithoutCondition(st, SecretSynced), BslSynced)), secret := None, location := None)
  }

  function PutInto(was: Option<Owned>, id: Id, uuid: string, body: Body): (Owned, Change) {
    match was
    case None => (NewObject(id, uuid, body), WasCreated)
    case Some(o) => (o.(body := body), if o.body == body then Unchanged else WasUpdated)
  }

  function SecretAdded(v: View, id: Id, data: int): View {
    var (secret, op) := PutInto(v.secret, id, v.cr.status.uuid, Credentials(data));
    WithStatus(v.(secret := Some(secret)), SecretStatus(v.cr.status, op))
  }

  function LocationAdded(cfg: Config, v: View, id: Id): View {
    var uuid := v.cr.status.uuid;
    var fields := LocationFields(cfg.enforcedLocation, v.cr.spec.fields, id.ns, uuid);
    var body := if v.location.Some? then LocationBody(v.location.value.body, fields) else Location(fields, false, 0);
    var (location, op) := PutInto(v.location, id, uuid, body);
    WithStatus(v.(location := Some(location)), LocationStatus(v.cr.status, op))
  }

  function HealthMirrored(v: View): View
    requires v.location.Some?
  {
    WithStatus(v, Mirrored(v.cr.status, v.location.value.body))
  }

  /** Secret, location and mirrored health, once approved. */
  function Provided(cfg: Config, v: View, id: Id, data: int): View {
    var approved := WithStatus(v, WithCondition(v.cr.status.(phase := New), AdminApproved, true, BslSpecApproved, NoMessage));
    HealthMirrored(LocationAdded(cfg, SecretAdded(approved, id, data), id))
  }

  /** Finalizer, decision and what follows from it. */
  function Followed(cfg: Config, v: View, id: Id, data: int): View
    requires v.request.Some? && v.request.value.body.Request? && v.request.value.body.source.Some?
  {
    var w := v.(cr := v.cr.(finalizer := true));
    var st, request := w.cr.status, w.request.value.body;
    if request.source.value.fields != w.cr.spec.fields then
      WithStatus(w, WithCondition(st, SpecUpdateApproved, false, BslSpecUpdateRejected, NoMessage))
    else
      var reason := ReasonFor(request.decision);
      match request.decision
      case Approve => Provided(cfg, w, id, data)
      case Pending => Rejected(w, WithCondition(st.(phase := New), AdminApproved, false, reason, NoMessage))
      case NoDecision => Rejected(w, WithCondition(st.(phase := New), AdminApproved, false, reason, NoMessage))
      case _ => Rejected(w, WithCondition(st.(phase := BackingOff), AdminApproved, false, reason, NoMessage))
  }

  function Passed(cfg: Config, v: View, id: Id, data: int): View
    requires v.request.Some? && v.request.value.body.Request? && v.request.value.body.source.Some?
  {
    Followed(cfg, v.(request := Some(Reviewed(cfg, v.request.value))), id, data)
  }

  // ---- The store steps as seen in the view ----

  lemma StatusInView(s: Store, id: Id, st: Status)
    requires id in s.crs && st.uuid == s.crs[id].status.uuid
    ensures var t := DoWriteStatus(s, id, st);
            && id in t.crs && ViewOf(t, id) == WithStatus(ViewOf(s, id), st)
            && SameElsewhere(s, t, id, st.uuid) && t.owned == s.owned
            && (st.uuid == "" || st.uuid in s.issued ==> t.issued == s.issued)
  {
  }

  lemma PutInView(s: Store, id: Id, ref: Ref, o: Owned)
    requires id in s.crs && Mine(ref, s.crs[id].status.uuid) && ref.name != ""
    ensures var t := DoPut(s, ref, o);
            && t.crs == s.crs && t.issued == s.issued && ref in t.owned && t.owned[ref] == o.(rv := t.owned[ref].rv)
            && SameElsewhere(s, t, id, ref.name)
            && (forall k | k != ref.kind :: At(t.owned, k, ref.name) == At(s.owned, k, ref.name))
            && At(t.owned, ref.kind, ref.name) == Some(o.(rv := 0))
  {
  }

  lemma PutKeepsTidy(s: Store, ref: Ref, o: Owned)
    requires Tidy(s.owned, ref.name) && LabelledWith(NABSL, o, ref.name)
    requires match ref.kind
             case REQUEST => o.body.Request?
             case BSL => o.body.Location? && !o.held
             case _ => !o.held
    ensures Tidy(DoPut(s, ref, o).owned, ref.name)
  {
  }

  lemma TidyFound(s: Store, kind: OwnedKind, uuid: string)
    requires Tidy(s.owned, uuid) && kind in {REQUEST, SECRET, BSL}
    ensures Found(s, kind, uuid) == if Ref(kind, uuid) in s.owned then {Ref(kind, uuid)} else {}
  {
  }

  lemma SameElsewhereTrans(s: Store, t: Store, u: Store, id: Id, uuid: string)
    requires SameElsewhere(s, t, id, uuid) && SameElsewhere(t, u, id, uuid)
    ensures SameElsewhere(s, u, id, uuid)
  {
    forall i: Id | i != id ensures SameCr(s, u, i) {
      assert SameCr(s, t, i) && SameCr(t, u, i);
    }
  }

  /** The store has come to show this view, and nothing else has changed since. */
  ghost predicate Leads(s: Store, t: Store, id: Id, uuid: string, v: View) {
    && uuid != "" && v.cr.status.uuid == uuid && uuid in t.issued && t.issued == s.issued
    && id in t.crs && ViewOf(t, id) == v && SameElsewhere(s, t, id, uuid) && Tidy(t.owned, uuid)
  }

  lemma WriteLeads(s0: Store, s: Store, id: Id, uuid: string, v: View, st: Status)
    requires Leads(s0, s, id, uuid, v) && st.uuid == uuid
    ensures Leads(s0, DoWriteStatus(s, id, st), id, uuid, WithStatus(v, st))
  {
    hide SameElsewhere, Tidy;
    StatusInView(s, id, st);
    SameElsewhereTrans(s0, s, DoWriteStatus(s, id, st), id, uuid);
  }

  lemma FinalizerLeads(s0: Store, s: Store, id: Id, uuid: string, v: View)
    requires Leads(s0, s, id, uuid, v)
    ensures Leads(s0, FinalizerStep(s, id).store, id, uuid, v.(cr := v.cr.(finalizer := true)))
  {
    SameElsewhereTrans(s0, s, FinalizerStep(s, id).store, id, uuid);
  }

  function PutView(v: View, kind: OwnedKind, o: Owned): View {
    match kind
    case REQUEST => v.(request := Some(o.(rv := 0)))
    case SECRET => v.(secret := Some(o.(rv := 0)))
    case _ => v.(location := Some(o.(rv := 0)))
  }

  lemma PutLeads(s0: Store, s: Store, id: Id, uuid: string, v: View, kind: OwnedKind, o: Owned)
    requires Leads(s0, s, id, uuid, v) && kind in {REQUEST, SECRET, BSL} && LabelledWith(NABSL, o, uuid)
    requires match kind
             case REQUEST => o.body.Request?
             case BSL => o.body.Location? && !o.held
             case _ => !o.held
    ensures Leads(s0, DoPut(s, Ref(kind, uuid), o), id, uuid, PutView(v, kind, o))
  {
    hide SameElsewhere, Tidy;
    PutInView(s, id, Ref(kind, uuid), o);
    PutKeepsTidy(s, Ref(kind, uuid), o);
    SameElsewhereTrans(s0, s, DoPut(s, Ref(kind, uuid), o), id, uuid);
  }

  lemma DropLeads(s0: Store, s: Store, id: Id, uuid: string, v: View, kind: OwnedKind)
    requires Leads(s0, s, id, uuid, v) && kind in {SECRET, BSL}
    ensures Leads(s0, Dropped(s, kind, uuid), id, uuid, if kind == SECRET then v.(secret := None) else v.(location := None))
  {
    TidyFound(s, kind, uuid);
    OnlyMember(Ref(kind, uuid));
    SameElsewhereTrans(s0, s, Dropped(s, kind, uuid), id, uuid);
  }

  /** What is stored under the NACUUID, read off the view. */
  lemma Stored(s: Store, id: Id, uuid: string, v: View, kind: OwnedKind)
    requires Leads(s, s, id, uuid, v) && kind in {REQUEST, SECRET, BSL}
    ensures var ref := Ref(kind, uuid);
            var o := match kind case REQUEST => v.request case SECRET => v.secret case _ => v.location;
            && (ref in s.owned <==> o.Some?) && (o.Some? ==> o.value.rv == 0)
            && (ref in s.owned ==> s.owned[ref] == o.value.(rv := s.owned[ref].rv) && LabelledWith(NABSL, s.owned[ref], uuid)
                                   && (kind == REQUEST ==> s.owned[ref].body.Request?)
                                   && (kind == BSL ==> s.owned[ref].body.Location?)
                                   && (kind != REQUEST ==> !s.owned[ref].held))
            && Found(s, kind, uuid) == (if o.Some? then {ref} else {})
            && (o.Some? ==> |Found(s, kind, uuid)| == 1 && Only(Found(s, kind, uuid)) == ref)
            && (o.None? ==> |Found(s, kind, uuid)| == 0)
  {
    TidyFound(s, kind, uuid);
    OnlyMember(Ref(kind, uuid));
  }

  lemma LeadsItself(s0: Store, s: Store, id: Id, uuid: string, v: View)
    requires Leads(s0, s, id, uuid, v)
    ensures Leads(s, s, id, uuid, v)
  {
  }

  lemma RequestLeads(cfg: Config, s0: Store, s: Store, id: Id, uuid: string, v: View)
    requires Leads(s0, s, id, uuid, v) && id.kind == NABSL
    ensures var out := RequestStep(cfg, s, id);
            if v.request.Some? then
              out.outcome == Continue && Leads(s0, out.store, id, uuid, v.(request := Some(Reviewed(cfg, v.request.value))))
            else out.outcome == Requeue && Leads(s0, out.store, id, uuid, Requested(cfg, v, id))
  {
    hide Leads, Tidy, SameElsewhere, Found, DoPut, ViewOf;
    assert s.crs[id].status.uuid == uuid && s.crs[id].spec == v.cr.spec by { StatusShown(s0, s, id, uuid, v); }
    StatusShown(s0, s, id, uuid, v);
    LeadsItself(s0, s, id, uuid, v);
    Stored(s, id, uuid, v, REQUEST);
    var ref := Ref(REQUEST, uuid);
    var out := RequestStep(cfg, s, id);
    if v.request.Some? {
      var o1 := PhaseUpdated(s.owned[ref]);
      PutLeads(s0, s, id, uuid, v, REQUEST, o1);
      var s1 := DoPut(s, ref, o1);
      var v1 := PutView(v, REQUEST, o1);
      LeadsItself(s0, s1, id, uuid, v1);
      Stored(s1, id, uuid, v1, REQUEST);
      var o2 := Decided(s1.owned[ref], Approve);
      PutLeads(s0, s1, id, uuid, v1, REQUEST, o2);
      assert o1.(rv := 0) == PhaseUpdated(v.request.value);
      assert o2.(rv := 0) == Decided(PhaseUpdated(v.request.value), Approve);
      if cfg.requireApproval || s.owned[ref].body.decision == Approve {
        assert Reviewed(cfg, v.request.value) == o1.(rv := 0);
      }
    } else {
      var decision := if cfg.requireApproval then Decision.Pending else Approve;
      var o1 := NewObject(id, uuid, Request(decision, NoPhase, None));
      PutLeads(s0, s, id, uuid, v, REQUEST, o1);
      var s1 := DoPut(s, ref, o1);
      var v1 := PutView(v, REQUEST, o1);
      LeadsItself(s0, s1, id, uuid, v1);
      Stored(s1, id, uuid, v1, REQUEST);
      PutLeads(s0, s1, id, uuid, v1, REQUEST, SourceRecorded(s1.owned[ref], Source(uuid, id, s.crs[id].spec.fields), decision));
    }
  }

  lemma StatusShown(s0: Store, s: Store, id: Id, uuid: string, v: View)
    requires Leads(s0, s, id, uuid, v)
    ensures id in s.crs && s.crs[id].status == v.cr.status && s.crs[id].spec == v.cr.spec && v.cr.status.uuid == uuid != ""
    ensures s.secrets == s0.secrets
  {
  }

  lemma WithdrawnLeads(s0: Store, s: Store, id: Id, uuid: string, v: View, st: Status)
    requires Leads(s0, s, id, uuid, v) && st.uuid == uuid
    ensures var out := Withdrawn(s, id, st);
            out.outcome == Failed && Leads(s0, out.store, id, uuid, Rejected(v, st))
  {
    hide Leads, Tidy, SameElsewhere, Found, DoWriteStatus, ViewOf, Dropped;
    StatusShown(s0, s, id, uuid, v);
    LeadsItself(s0, s, id, uuid, v);
    Stored(s, id, uuid, v, SECRET);
    DropLeads(s0, s, id, uuid, v, SECRET);
    var v1 := v.(secret := None);
    DropLeads(s0, Dropped(s, SECRET, uuid), id, uuid, v1, BSL);
    var s2 := Dropped(Dropped(s, SECRET, uuid), BSL, uuid);
    WriteLeads(s0, s2, id, uuid, v1.(location := None), WithoutCondition(WithoutCondition(st, SecretSynced), BslSynced));
  }

  lemma DecisionLeads(s0: Store, s: Store, id: Id, uuid: string, v: View, decision: Decision)
    requires Leads(s0, s, id, uuid, v)
    ensures var out, st, reason := DecisionStep(s, id, decision), v.cr.status, ReasonFor(decision);
            match decision
            case Approve =>
              out.outcome == Continue
              && Leads(s0, out.store, id, uuid,
                       WithStatus(v, WithCondition(st.(phase := New), AdminApproved, true, reason, NoMessage)))
            case Pending =>
              out.outcome == Failed
              && Leads(s0, out.store, id, uuid,
                       Rejected(v, WithCondition(st.(phase := New), AdminApproved, false, reason, NoMessage)))
            case NoDecision =>
              out.outcome == Failed
              && Leads(s0, out.store, id, uuid,
                       Rejected(v, WithCondition(st.(phase := New), AdminApproved, false, reason, NoMessage)))
            case _ =>
              out.outcome == Failed
              && Leads(s0, out.store, id, uuid,
                       Rejected(v, WithCondition(st.(phase := BackingOff), AdminApproved, false, reason, NoMessage)))
  {
    hide Leads, Tidy, SameElsewhere, Found, DoWriteStatus, ViewOf, Withdrawn, Rejected;
    StatusShown(s0, s, id, uuid, v);
    var st, reason := v.cr.status, ReasonFor(decision);
    match decision
    case Approve =>
      WriteLeads(s0, s, id, uuid, v, WithCondition(st.(phase := New), AdminApproved, true, reason, NoMessage));
    case Pending =>
      WithdrawnLeads(s0, s, id, uuid, v, WithCondition(st.(phase := New), AdminApproved, false, reason, NoMessage));
    case NoDecision =>
      WithdrawnLeads(s0, s, id, uuid, v, WithCondition(st.(phase := New), AdminApproved, false, reason, NoMessage));
    case _ =>
      WithdrawnLeads(s0, s, id, uuid, v, WithCondition(st.(phase := BackingOff), AdminApproved, false, reason, NoMessage));
  }

  lemma SecretLeads(s0: Store, s: Store, id: Id, uuid: string, v: View, data: int)
    requires Leads(s0, s, id, uuid, v) && id.kind == NABSL
    requires var fields := v.cr.spec.fields;
             && Credential in fields && fields[Credential].SecretKey? && fields[Credential].secret != ""
             && (id.ns, fields[Credential].secret) in s0.secrets && s0.secrets[(id.ns, fields[Credential].secret)] == data
    ensures SecretStep(s, id).outcome == Continue && Leads(s0, SecretStep(s, id).store, id, uuid, SecretAdded(v, id, data))
  {
    hide Leads, Tidy, SameElsewhere, Found, DoWriteStatus, DoPut, ViewOf;
    StatusShown(s0, s, id, uuid, v);
    LeadsItself(s0, s, id, uuid, v);
    Stored(s, id, uuid, v, SECRET);
    var ref := Ref(SECRET, uuid);
    var o := if ref in s.owned then s.owned[ref].(body := Credentials(data)) else NewObject(id, uuid, Credentials(data));
    PutLeads(s0, s, id, uuid, v, SECRET, o);
    var (secret, op) := PutInto(v.secret, id, uuid, Credentials(data));
    assert secret == o.(rv := 0);
    WriteLeads(s0, DoPut(s, ref, o), id, uuid, PutView(v, SECRET, o), SecretStatus(v.cr.status, op));
  }

  lemma LocationLeads(cfg: Config, s0: Store, s: Store, id: Id, uuid: string, v: View)
    requires Leads(s0, s, id, uuid, v) && id.kind == NABSL && v.secret.Some? && Credential in v.cr.spec.fields
    ensures LocationStep(cfg, s, id).outcome == Continue
    ensures Leads(s0, LocationStep(cfg, s, id).store, id, uuid, LocationAdded(cfg, v, id))
  {
    hide Leads, Tidy, SameElsewhere, Found, DoWriteStatus, DoPut, ViewOf, LocationFields;
    StatusShown(s0, s, id, uuid, v);
    LeadsItself(s0, s, id, uuid, v);
    Stored(s, id, uuid, v, SECRET);
    Stored(s, id, uuid, v, BSL);
    var ref := Ref(BSL, uuid);
    var fields := LocationFields(cfg.enforcedLocation, v.cr.spec.fields, id.ns, uuid);
    var body := if ref in s.owned then LocationBody(s.owned[ref].body, fields) else Location(fields, false, 0);
    var o := if ref in s.owned then s.owned[ref].(body := body) else NewObject(id, uuid, body);
    PutLeads(s0, s, id, uuid, v, BSL, o);
    var (location, op) := PutInto(v.location, id, uuid, body);
    assert location == o.(rv := 0);
    WriteLeads(s0, DoPut(s, ref, o), id, uuid, PutView(v, BSL, o), LocationStatus(v.cr.status, op));
  }

  lemma MirrorLeads(s0: Store, s: Store, id: Id, uuid: string, v: View)
    requires Leads(s0, s, id, uuid, v) && v.location.Some?
    ensures MirrorStep(s, id).outcome == Continue && Leads(s0, MirrorStep(s, id).store, id, uuid, HealthMirrored(v))
  {
    hide Leads, Tidy, SameElsewhere, Found, DoWriteStatus, ViewOf;
    StatusShown(s0, s, id, uuid, v);
    LeadsItself(s0, s, id, uuid, v);
    Stored(s, id, uuid, v, BSL);
    WriteLeads(s0, s, id, uuid, v, Mirrored(v.cr.status, v.location.value.body));
  }

  // ---- Whole passes ----

  predicate HasSource(v: View, uuid: string) {
    && v.request.Some? && v.request.value.body.Request? && v.request.value.body.source.Some?
    && v.request.value.body.source.value.uuid == uuid
  }

  function DataOf(s: Store, id: Id, fields: Fields): int {
    if Credential in fields && fields[Credential].SecretKey? && (id.ns, fields[Credential].secret) in s.secrets
    then s.secrets[(id.ns, fields[Credential].secret)] else 0
  }

  lemma EnsureLeads(cfg: Config, s0: Store, s: Store, id: Id, uuid: string, v: View)
    requires Leads(s0, s, id, uuid, v) && v.request.Some? && v.request.value.body.Request?
    requires v.request.value.body.source.Some? ==> HasSource(v, uuid)
    ensures var out, request := EnsureStep(cfg, s, id), v.request.value.body;
            if request.source.None? then out == Out(s, Requeue)
            else if request.source.value.fields != v.cr.spec.fields then
              out.outcome == Failed
              && Leads(s0, out.store, id, uuid,
                       WithStatus(v, WithCondition(v.cr.status, SpecUpdateApproved, false, BslSpecUpdateRejected, NoMessage)))
            else out == DecisionStep(s, id, request.decision)
  {
    hide Leads, Tidy, SameElsewhere, Found, DoWriteStatus, ViewOf, Withdrawn, DecisionStep;
    StatusShown(s0, s, id, uuid, v);
    LeadsItself(s0, s, id, uuid, v);
    Stored(s, id, uuid, v, REQUEST);
    WriteLeads(s0, s, id, uuid, v, WithCondition(v.cr.status, SpecUpdateApproved, false, BslSpecUpdateRejected, NoMessage));
  }

  /** From the decision on: the second half of a pass whose request has its source. */
  lemma FollowLeads(cfg: Config, s0: Store, s: Store, id: Id, uuid: string, v: View)
    requires Leads(s0, s, id, uuid, v) && HasSource(v, uuid) && id.kind == NABSL
    requires LocationError(cfg, s0.secrets, id.ns, v.cr.spec.fields).None?
    ensures Following(cfg, s, id).outcome != Requeue
    ensures Leads(s0, Following(cfg, s, id).store, id, uuid, Followed(cfg, v, id, DataOf(s0, id, v.cr.spec.fields)))
  {
    hide Leads, ViewOf, LocationFields, Rejected, WithCondition, WithoutCondition,
         FinalizerStep, EnsureStep, DecisionStep, SecretStep, LocationStep, MirrorStep, SecretAdded, LocationAdded, HealthMirrored;
    FinalizerLeads(s0, s, id, uuid, v);
    var s5, w := FinalizerStep(s, id).store, v.(cr := v.cr.(finalizer := true));
    StatusShown(s0, s5, id, uuid, w);
    EnsureLeads(cfg, s0, s5, id, uuid, w);
    var request := v.request.value.body;
    if request.source.value.fields == v.cr.spec.fields {
      DecisionLeads(s0, s5, id, uuid, w, request.decision);
      if request.decision == Approve {
        ProvideLeads(cfg, s0, s5, id, uuid, w);
      }
    }
  }

  ghost function Following(cfg: Config, s: Store, id: Id): Out
    requires id in s.crs
  {
    var o5 := FinalizerStep(s, id);
    var o6 := EnsureStep(cfg, o5.store, id);
    if o6.outcome != Continue then o6 else Providing(cfg, o6.store, id)
  }

  ghost function Providing(cfg: Config, s: Store, id: Id): Out
    requires id in s.crs
  {
    var o7 := SecretStep(s, id);
    if o7.outcome != Continue then o7 else
    var o8 := LocationStep(cfg, o7.store, id);
    if o8.outcome != Continue then o8 else
    MirrorStep(o8.store, id)
  }

  lemma ProvideLeads(cfg: Config, s0: Store, s: Store, id: Id, uuid: string, w: View)
    requires Leads(s0, s, id, uuid, w) && id.kind == NABSL
    requires LocationError(cfg, s0.secrets, id.ns, w.cr.spec.fields).None?
    ensures DecisionStep(s, id, Approve).outcome == Continue
    ensures Providing(cfg, DecisionStep(s, id, Approve).store, id).outcome == Continue
    ensures Leads(s0, Providing(cfg, DecisionStep(s, id, Approve).store, id).store, id, uuid,
                  Provided(cfg, w, id, DataOf(s0, id, w.cr.spec.fields)))
  {
    hide Leads, ViewOf, LocationFields, DecisionStep, SecretStep, LocationStep, MirrorStep;
    var data := DataOf(s0, id, w.cr.spec.fields);
    StatusShown(s0, s, id, uuid, w);
    DecisionLeads(s0, s, id, uuid, w, Approve);
    var s6 := DecisionStep(s, id, Approve).store;
    var v6 := WithStatus(w, WithCondition(w.cr.status.(phase := New), AdminApproved, true, BslSpecApproved, NoMessage));
    SecretLeads(s0, s6, id, uuid, v6, data);
    var s7, v7 := SecretStep(s6, id).store, SecretAdded(v6, id, data);
    LocationLeads(cfg, s0, s7, id, uuid, v7);
    var s8, v8 := LocationStep(cfg, s7, id).store, LocationAdded(cfg, v7, id);
    MirrorLeads(s0, s8, id, uuid, v8);
  }

  ghost function Entering(cfg: Config, s: Store, id: Id, token: string): (t: Store)
    requires id in s.crs && |token| == UuidLength
    ensures id in t.crs
  {
    UuidStep(ValidateStep(cfg, InitStep(s, id).store, id).store, id, token).store
  }

  lemma EnterLeads(cfg: Config, s: Store, id: Id, uuid: string, v: View, token: string)
    requires Leads(s, s, id, uuid, v) && |token| == UuidLength
    requires LocationError(cfg, s.secrets, id.ns, v.cr.spec.fields).None?
    ensures Leads(s, Entering(cfg, s, id, token), id, uuid, Entered(v, id, token))
  {
    hide Leads, ViewOf, DoWriteStatus, LocationError;
    StatusShown(s, s, id, uuid, v);
    var st := v.cr.status;
    var st1 := if st.phase == Unset then st.(phase := New) else st;
    WriteLeads(s, s, id, uuid, v, st1);
    var s1 := InitStep(s, id).store;
    StatusShown(s, s1, id, uuid, WithStatus(v, st1));
    var st2 := WithCondition(st1, Accepted, true, BslSpecValidation, NoMessage);
    WriteLeads(s, s1, id, uuid, WithStatus(v, st1), st2);
    StatusShown(s, ValidateStep(cfg, s1, id).store, id, uuid, WithStatus(WithStatus(v, st1), st2));
  }

  /** The first pass over a location gives it a NACUUID under which there is nothing yet. */
  lemma EnterFresh(cfg: Config, s: Store, id: Id, token: string)
    requires Inv(cfg, s) && id in s.crs && s.crs[id].status.uuid == "" && |token| == UuidLength && TokenFree(s, token)
    requires LocationError(cfg, s.secrets, id.ns, s.crs[id].spec.fields).None?
    ensures var uuid := Generated(id.ns, id.name, token);
            var t := Entering(cfg, s, id, token);
            && t.crs[id].status.uuid == uuid && t.crs[id].spec == s.crs[id].spec && t.secrets == s.secrets
            && Leads(t, t, id, uuid, View(t.crs[id].(rv := 0), None, None, None))
  {
    hide Inv, LocationError, Entering, TokenFree;
    FreshIsTidy(cfg, s, token, Generated(id.ns, id.name, token));
    EnteringGivesUuid(cfg, s, id, token);
  }

  lemma FreshIsTidy(cfg: Config, s: Store, token: string, uuid: string)
    requires Inv(cfg, s) && TokenFree(s, token) && EndsWith(uuid, token)
    ensures Tidy(s.owned, uuid) && forall ref: Ref | ref in s.owned :: ref.name != uuid
  {
    hide CrsOk, OwnershipOk, FrozenOk, VersionsOk, EndsWith;
    forall ref: Ref | ref in s.owned && ref.kind in {REQUEST, SECRET, BSL}
      ensures !LabelledWith(NABSL, s.owned[ref], uuid) && ref.name != uuid
    {
      assert Claimed(ref, s.owned[ref]) ==> NamedByLabel(ref, s.owned[ref]);
    }
  }

  lemma EnteringGivesUuid(cfg: Config, s: Store, id: Id, token: string)
    requires id in s.crs && s.crs[id].status.uuid == "" && |token| == UuidLength
    requires LocationError(cfg, s.secrets, id.ns, s.crs[id].spec.fields).None?
    ensures var t, uuid := Entering(cfg, s, id, token), Generated(id.ns, id.name, token);
            && uuid != "" && EndsWith(uuid, token) && uuid in t.issued
            && t.owned == s.owned && t.secrets == s.secrets
            && t.crs[id].spec == s.crs[id].spec && t.crs[id].status.uuid == uuid
  {
    hide LocationError, EndsWith, DoWriteStatus, Generated;
    GeneratedNameBounds(id.ns, id.name, token);
    StatusWritten(s, id, s.crs[id].status.(phase := New));
    var s1 := InitStep(s, id).store;
    StatusWritten(s1, id, WithCondition(s1.crs[id].status, Accepted, true, BslSpecValidation, NoMessage));
    var s2 := ValidateStep(cfg, s1, id).store;
    StatusWritten(s2, id, s2.crs[id].status.(uuid := Generated(id.ns, id.name, token)));
    NameIsIssued(s2, id, s2.crs[id].status.(uuid := Generated(id.ns, id.name, token)));
  }

  lemma NameIsIssued(s: Store, id: Id, st: Status)
    requires id in s.crs && s.crs[id].status.uuid == "" && st.uuid != ""
    ensures st.uuid in DoWriteStatus(s, id, st).issued
  {
  }

  /** In a reachable state labels, names and kinds agree under the NACUUID of an object. */
  lemma ReachableIsTidy(cfg: Config, s: Store, id: Id)
    requires Inv(cfg, s) && !cfg.staleReads && id in s.crs && s.crs[id].status.uuid != ""
    ensures Leads(s, s, id, s.crs[id].status.uuid, ViewOf(s, id))
    ensures ViewOf(s, id).request.Some? ==>
              var request := ViewOf(s, id).request.value.body;
              request.Request? && (request.source.Some? ==> request.source.value.uuid == s.crs[id].status.uuid)
  {
    hide CrsOk, OwnersOk, DeletionsOk, FrozenOk, VersionsOk, SyncLabelsOk;
    var uuid := s.crs[id].status.uuid;
    CarrierIsIssuedTo(cfg, s, id);
    forall ref: Ref | ref in s.owned && ref.kind in {REQUEST, SECRET, BSL}
      ensures LabelledWith(NABSL, s.owned[ref], uuid) <==> ref.name == uuid
      ensures ref.name == uuid ==>
                && Claimed(ref, s.owned[ref]) && PlainObject(ref, s.owned[ref])
                && (ref.kind == REQUEST ==> RequestOk(s.issued, ref, s.owned[ref]))
    {
      assert NameIssued(s.issued, ref, s.owned[ref]);
      assert Claimed(ref, s.owned[ref]) ==> NamedByLabel(ref, s.owned[ref]);
    }
    assert Tidy(s.owned, uuid);
  }

  lemma PassIs(cfg: Config, s: Store, id: Id, token: string)
    requires id in s.crs && |token| == UuidLength && LocationError(cfg, s.secrets, id.ns, s.crs[id].spec.fields).None?
    ensures var o4 := RequestStep(cfg, Entering(cfg, s, id, token), id);
            Pass(cfg, s, id, token) == if o4.outcome != Continue then o4 else Following(cfg, o4.store, id)
  {
    hide LocationError, RequestStep, UuidStep, EnsureStep, SecretStep, LocationStep, MirrorStep, FinalizerStep;
    assert InitStep(s, id).store.secrets == s.secrets && InitStep(s, id).store.crs[id].spec == s.crs[id].spec;
  }

  /** A pass over a location whose request has its source. */
  lemma PassLeads(cfg: Config, s: Store, id: Id, uuid: string, v: View, token: string)
    requires Leads(s, s, id, uuid, v) && id.kind == NABSL && |token| == UuidLength && HasSource(v, uuid)
    requires LocationError(cfg, s.secrets, id.ns, v.cr.spec.fields).None?
    ensures Pass(cfg, s, id, token).outcome != Requeue
    ensures Leads(s, Pass(cfg, s, id, token).store, id, uuid,
                  Passed(cfg, Entered(v, id, token), id, DataOf(s, id, v.cr.spec.fields)))
  {
    hide Leads, ViewOf, LocationError, Pass, RequestStep, Followed, Following, Entering, LocationFields;
    StatusShown(s, s, id, uuid, v);
    PassIs(cfg, s, id, token);
    EnterLeads(cfg, s, id, uuid, v, token);
    var s3, v3 := Entering(cfg, s, id, token), Entered(v, id, token);
    RequestLeads(cfg, s, s3, id, uuid, v3);
    var s4, v4 := RequestStep(cfg, s3, id).store, v3.(request := Some(Reviewed(cfg, v3.request.value)));
    FollowLeads(cfg, s, s4, id, uuid, v4);
    StatusShown(s, Pass(cfg, s, id, token).store, id, uuid, Passed(cfg, v3, id, DataOf(s, id, v.cr.spec.fields)));
  }

  // ---- Stabilisation ----

  /** A crash between creating the request and writing its status leaves it without source. */
  predicate HalfInitialised(s: Store, id: Id)
    requires id in s.crs
  {
    var ref := Ref(REQUEST, s.crs[id].status.uuid);
    ref in s.owned && s.owned[ref].body.Request? && s.owned[ref].body.source.None?
  }

  /** The creating pass may run.  The path choice takes it for objects not being deleted when it
      read them; one may be marked since, so nothing is asked here of the mark. */
  ghost predicate CanPass(cfg: Config, s: Store, id: Id, token: string) {
    && Inv(cfg, s) && !cfg.staleReads && id in s.crs && id.kind == NABSL && |token| == UuidLength
    && LocationError(cfg, s.secrets, id.ns, s.crs[id].spec.fields).None?
    && (s.crs[id].status.uuid == "" ==> TokenFree(s, token))
  }

  lemma SecretIsThere(cfg: Config, s: Store, id: Id, fields: Fields)
    requires LocationError(cfg, s.secrets, id.ns, fields).None?
    ensures && Credential in fields && fields[Credential].SecretKey? && fields[Credential].secret != ""
            && (id.ns, fields[Credential].secret) in s.secrets
            && s.secrets[(id.ns, fields[Credential].secret)] == DataOf(s, id, fields)
  {
  }

  lemma ViewIs(s: Store, t: Store, id: Id, uuid: string, v: View)
    requires Leads(s, t, id, uuid, v)
    ensures id in t.crs && ViewOf(t, id) == v && t.secrets == s.secrets
  {
  }

  /** The view is complete: there is a request with a source, and its decision will not be
      changed by the controller. */
  ghost predicate Complete(cfg: Config, s: Store, id: Id, v: View) {
    var uuid := v.cr.status.uuid;
    && Leads(s, s, id, uuid, v) && HasSource(v, uuid)
    && (cfg.requireApproval || v.request.value.body.decision == Approve)
    && LocationError(cfg, s.secrets, id.ns, v.cr.spec.fields).None?
  }

  lemma FirstPass(cfg: Config, s: Store, id: Id, token: string)
    requires CanPass(cfg, s, id, token) && !(s.crs[id].status.uuid != "" && HalfInitialised(s, id))
    ensures var t := Pass(cfg, s, id, token).store;
            id in t.crs && t.crs[id].spec == s.crs[id].spec && Complete(cfg, t, id, ViewOf(t, id))
  {
    hide Inv, LocationError, Pass, RequestStep, Entering, Following, TokenFree, Tidy, SameElsewhere, Passed, Entered, Requested,
         Leads, Complete;
    PassIs(cfg, s, id, token);
    var s3 := Entering(cfg, s, id, token);
    if s.crs[id].status.uuid == "" {
      EnterFresh(cfg, s, id, token);
      AskingCompletes(cfg, s3, s3, id, Generated(id.ns, id.name, token), View(s3.crs[id].(rv := 0), None, None, None));
    } else {
      ReachableIsTidy(cfg, s, id);
      var uuid, v := s.crs[id].status.uuid, ViewOf(s, id);
      if v.request.Some? {
        PassLeads(cfg, s, id, uuid, v, token);
        PassCompletes(cfg, s, Pass(cfg, s, id, token).store, id, uuid, v, token);
      } else {
        EnterLeads(cfg, s, id, uuid, v, token);
        EnteredKeeps(v, id, token);
        AskingCompletes(cfg, s, s3, id, uuid, Entered(v, id, token));
      }
    }
  }

  lemma EnteredKeeps(v: View, id: Id, token: string)
    requires |token| == UuidLength
    ensures var w := Entered(v, id, token);
            && w.cr.spec == v.cr.spec && w.request == v.request && w.cr.status.phase != Unset
            && HasAccepted(w.cr.status) && (v.cr.status.uuid != "" ==> w.cr.status.uuid == v.cr.status.uuid)
  {
  }

  lemma AskingCompletes(cfg: Config, s0: Store, s: Store, id: Id, uuid: string, v: View)
    requires Leads(s0, s, id, uuid, v) && v.request.None? && id.kind == NABSL
    requires LocationError(cfg, s0.secrets, id.ns, v.cr.spec.fields).None?
    ensures var t := RequestStep(cfg, s, id).store;
            RequestStep(cfg, s, id).outcome == Requeue
            && t.crs[id].spec == v.cr.spec && Complete(cfg, t, id, ViewOf(t, id))
  {
    hide LocationError, RequestStep, Tidy, SameElsewhere;
    RequestLeads(cfg, s0, s, id, uuid, v);
    SecretsUntouched(s0, RequestStep(cfg, s, id).store, id, uuid);
    LeadsItself(s0, RequestStep(cfg, s, id).store, id, uuid, Requested(cfg, v, id));
  }

  lemma PassCompletes(cfg: Config, s: Store, t: Store, id: Id, uuid: string, v: View, token: string)
    requires HasSource(v, uuid) && |token| == UuidLength && v.cr.status.uuid == uuid
    requires Leads(s, t, id, uuid, Passed(cfg, Entered(v, id, token), id, DataOf(s, id, v.cr.spec.fields)))
    requires LocationError(cfg, s.secrets, id.ns, v.cr.spec.fields).None?
    ensures t.crs[id].spec == v.cr.spec && Complete(cfg, t, id, ViewOf(t, id))
  {
    hide LocationError, Tidy, SameElsewhere, Entered, Passed;
    EnteredKeeps(v, id, token);
    FollowedKeeps(cfg, Entered(v, id, token), id, DataOf(s, id, v.cr.spec.fields));
    SecretsUntouched(s, t, id, uuid);
    LeadsItself(s, t, id, uuid, ViewOf(t, id));
  }

  lemma SecretsUntouched(s: Store, t: Store, id: Id, uuid: string)
    requires SameElsewhere(s, t, id, uuid)
    ensures t.secrets == s.secrets
  {
  }

  predicate HasAccepted(st: Status) {
    Accepted in st.conds && st.conds[Accepted] == Condition(true, BslSpecValidation, NoMessage)
  }

  /** What every outcome of the decision leaves as it was. */
  predicate KeepsBasics(v: View, w: View) {
    && w.cr.spec == v.cr.spec && w.cr.status.uuid == v.cr.status.uuid && w.request == v.request
    && w.cr.finalizer == v.cr.finalizer && w.cr.deleting == v.cr.deleting && w.cr.uid == v.cr.uid
    && (v.cr.status.phase != Unset ==> w.cr.status.phase != Unset)
    && (HasAccepted(v.cr.status) ==> HasAccepted(w.cr.status))
  }

  lemma ProvidedKeeps(cfg: Config, x: View, id: Id, data: int)
    ensures KeepsBasics(x, Provided(cfg, x, id, data))
  {
    hide LocationFields;
  }

  lemma RejectedKeeps(x: View, phase: Phase, reason: Reason)
    requires phase != Unset
    ensures KeepsBasics(x, Rejected(x, WithCondition(x.cr.status.(phase := phase), AdminApproved, false, reason, NoMessage)))
  {
  }

  lemma FollowedKeeps(cfg: Config, v: View, id: Id, data: int)
    requires v.request.Some? && v.request.value.body.Request? && v.request.value.body.source.Some?
    ensures var w := Passed(cfg, v, id, data);
            KeepsBasics(v.(cr := v.cr.(finalizer := true), request := Some(Reviewed(cfg, v.request.value))), w)
  {
    hide LocationFields, Rejected, Provided;
    var x := v.(cr := v.cr.(finalizer := true), request := Some(Reviewed(cfg, v.request.value)));
    ProvidedKeeps(cfg, x, id, data);
    RejectedKeeps(x, New, BslSpecApprovalPending);
    RejectedKeeps(x, BackingOff, BslSpecRejected);
    RejectedKeeps(x, BackingOff, BslSpecInvalid);
  }

  lemma EnteredStays(v: View, id: Id, token: string)
    requires |token| == UuidLength && v.cr.status.uuid != "" && v.cr.status.phase != Unset && HasAccepted(v.cr.status)
    ensures Entered(v, id, token) == v
  {
    assert v.cr.status.conds[Accepted := Condition(true, BslSpecValidation, NoMessage)] == v.cr.status.conds;
  }

  lemma ProvidedTwice(cfg: Config, v: View, id: Id, data: int)
    ensures var w := Provided(cfg, v, id, data); Provided(cfg, w, id, data) == w
  {
    hide LocationFields, SecretAdded, LocationAdded;
    var a0 := WithStatus(v, WithCondition(v.cr.status.(phase := New), AdminApproved, true, BslSpecApproved, NoMessage));
    SecretAddedFacts(a0, id, data);
    var a1 := SecretAdded(a0, id, data);
    LocationAddedFacts(cfg, a1, id);
    var w := Provided(cfg, v, id, data);
    var b0 := WithStatus(w, WithCondition(w.cr.status.(phase := New), AdminApproved, true, BslSpecApproved, NoMessage));
    assert b0.cr.status.conds == w.cr.status.conds;
    SecretAddedFacts(b0, id, data);
    LocationAddedFacts(cfg, b0, id);
  }

  predicate HasApproved(st: Status) {
    AdminApproved in st.conds && st.conds[AdminApproved] == Condition(true, BslSpecApproved, NoMessage)
  }

  lemma SecretAddedFacts(v: View, id: Id, data: int)
    ensures var w := SecretAdded(v, id, data);
            && w.secret.Some? && w.secret.value.body == Credentials(data)
            && w == WithStatus(v.(secret := w.secret), w.cr.status)
            && w.cr.status == v.cr.status.(conds := w.cr.status.conds)
            && (HasApproved(v.cr.status) ==> HasApproved(w.cr.status))
            && (v.secret.Some? && v.secret.value.body == Credentials(data) ==> w == v)
  {
  }

  lemma LocationAddedFacts(cfg: Config, v: View, id: Id)
    ensures var w := LocationAdded(cfg, v, id);
            var fields := LocationFields(cfg.enforcedLocation, v.cr.spec.fields, id.ns, v.cr.status.uuid);
            && w.location.Some? && w.location.value.body.Location? && w.location.value.body.fields == fields
            && w == WithStatus(v.(location := w.location), w.cr.status)
            && w.cr.status == v.cr.status.(conds := w.cr.status.conds, phase := Created)
            && (HasApproved(v.cr.status) ==> HasApproved(w.cr.status))
            && (v.location.Some? && v.location.value.body.Location? && v.location.value.body.fields == fields ==>
                  w == WithStatus(v, v.cr.status.(phase := Created)))
  {
    hide LocationFields;
  }

  lemma RejectedTwice(v: View, phase: Phase, reason: Reason)
    ensures var w := Rejected(v, WithCondition(v.cr.status.(phase := phase), AdminApproved, false, reason, NoMessage));
            Rejected(w, WithCondition(w.cr.status.(phase := phase), AdminApproved, false, reason, NoMessage)) == w
  {
    var w := Rejected(v, WithCondition(v.cr.status.(phase := phase), AdminApproved, false, reason, NoMessage));
    var again := Rejected(w, WithCondition(w.cr.status.(phase := phase), AdminApproved, false, reason, NoMessage));
    assert again.cr.status.conds == w.cr.status.conds;
  }

  lemma FollowedTwice(cfg: Config, v: View, id: Id, data: int)
    requires v.request.Some? && v.request.value.body.Request? && v.request.value.body.source.Some?
    ensures var w := Followed(cfg, v, id, data);
            w.request == v.request && Followed(cfg, w, id, data) == w
  {
    hide LocationFields, Rejected, Provided, WithCondition;
    var x := v.(cr := v.cr.(finalizer := true));
    ProvidedTwice(cfg, x, id, data);
    RejectedTwice(x, New, BslSpecApprovalPending);
    RejectedTwice(x, BackingOff, BslSpecRejected);
    RejectedTwice(x, BackingOff, BslSpecInvalid);
    ProvidedKeeps(cfg, x, id, data);
    RejectedKeeps(x, New, BslSpecApprovalPending);
    RejectedKeeps(x, BackingOff, BslSpecRejected);
    RejectedKeeps(x, BackingOff, BslSpecInvalid);
    UpdateTwice(x.cr.status);
  }

  lemma UpdateTwice(st: Status)
    ensures var w := WithCondition(st, SpecUpdateApproved, false, BslSpecUpdateRejected, NoMessage);
            WithCondition(w, SpecUpdateApproved, false, BslSpecUpdateRejected, NoMessage) == w
  {
    var w := WithCondition(st, SpecUpdateApproved, false, BslSpecUpdateRejected, NoMessage);
    assert WithCondition(w, SpecUpdateApproved, false, BslSpecUpdateRejected, NoMessage).conds == w.conds;
  }

  /** A second pass over what a complete view became changes nothing. */
  lemma PassedTwice(cfg: Config, v: View, id: Id, data: int, token1: string, token2: string)
    requires |token1| == |token2| == UuidLength && HasSource(v, v.cr.status.uuid) && v.cr.status.uuid != ""
    requires cfg.requireApproval || v.request.value.body.decision == Approve
    ensures var w := Passed(cfg, Entered(v, id, token1), id, data);
            HasSource(w, w.cr.status.uuid) && Passed(cfg, Entered(w, id, token2), id, data) == w
  {
    hide LocationFields, Entered, Followed, HasAccepted;
    var v1 := Entered(v, id, token1);
    EnteredKeeps(v, id, token1);
    FollowedKeeps(cfg, v1, id, data);
    FollowedTwice(cfg, v1.(request := Some(Reviewed(cfg, v1.request.value))), id, data);
    var w := Passed(cfg, v1, id, data);
    EnteredStays(w, id, token2);
    assert Reviewed(cfg, w.request.value) == w.request.value;
  }

  /** The secret and the location of this object, with the spec it asks for. */
  predicate Served(cfg: Config, s: Store, id: Id)
    requires id in s.crs
  {
    var uuid := s.crs[id].status.uuid;
    && Ref(SECRET, uuid) in s.owned && Ref(BSL, uuid) in s.owned && s.owned[Ref(BSL, uuid)].body.Location?
    && s.owned[Ref(BSL, uuid)].body.fields == LocationFields(cfg.enforcedLocation, s.crs[id].spec.fields, id.ns, uuid)
  }

  predicate NotServed(s: Store, id: Id)
    requires id in s.crs
  {
    var uuid := s.crs[id].status.uuid;
    Ref(SECRET, uuid) !in s.owned && Ref(BSL, uuid) !in s.owned
  }

  /** With an approved spec the objects follow the decision; a changed spec changes nothing. */
  ghost predicate FollowsDecision(cfg: Config, s: Store, id: Id)
    requires id in s.crs
  {
    var ref := Ref(REQUEST, s.crs[id].status.uuid);
    && ref in s.owned && s.owned[ref].body.Request? && s.owned[ref].body.source.Some?
    && (s.owned[ref].body.source.value.fields == s.crs[id].spec.fields ==>
          if s.owned[ref].body.decision == Approve then Served(cfg, s, id) else NotServed(s, id))
  }

  lemma LaterPass(cfg: Config, s: Store, id: Id, token: string)
    requires id in s.crs && id.kind == NABSL && |token| == UuidLength && Complete(cfg, s, id, ViewOf(s, id))
    ensures Pass(cfg, s, id, token).outcome != Requeue
    ensures var t := Pass(cfg, s, id, token).store;
            && Leads(s, t, id, s.crs[id].status.uuid, ViewOf(t, id))
            && ViewOf(t, id) == Passed(cfg, Entered(ViewOf(s, id), id, token), id, DataOf(s, id, s.crs[id].spec.fields))
            && Complete(cfg, t, id, ViewOf(t, id)) && t.crs[id].spec == s.crs[id].spec && t.secrets == s.secrets
  {
    hide LocationError, Pass, Tidy, SameElsewhere, Entered, Passed;
    PassLeads(cfg, s, id, s.crs[id].status.uuid, ViewOf(s, id), token);
    PassCompletes(cfg, s, Pass(cfg, s, id, token).store, id, s.crs[id].status.uuid, ViewOf(s, id), token);
    SecretsUntouched(s, Pass(cfg, s, id, token).store, id, s.crs[id].status.uuid);
  }

  lemma SameViewSameStore(s: Store, t: Store, id: Id, uuid: string)
    requires id in s.crs && s.crs[id].status.uuid == uuid && Leads(s, t, id, uuid, ViewOf(s, id))
    ensures SameButVersions(s, t)
  {
    forall i: Id ensures i in s.crs <==> i in t.crs {
      assert i != id ==> SameCr(s, t, i);
    }
    forall i | i in s.crs ensures t.crs[i].(rv := 0) == s.crs[i].(rv := 0) {
      assert i != id ==> SameCr(s, t, i);
    }
    forall ref: Ref ensures ref in s.owned <==> ref in t.owned
                    ensures ref in s.owned ==> t.owned[ref].(rv := 0) == s.owned[ref].(rv := 0) {
      if Mine(ref, uuid) {
        assert At(s.owned, ref.kind, uuid) == At(t.owned, ref.kind, uuid);
      }
    }
  }

  lemma PassedFollows(cfg: Config, v: View, id: Id, data: int)
    requires HasSource(v, v.cr.status.uuid)
    ensures var w := Passed(cfg, v, id, data);
            w.request.Some? && w.request.value.body.Request? && w.request.value.body.source.Some?
            && (w.request.value.body.source.value.fields == w.cr.spec.fields ==>
                  if w.request.value.body.decision == Approve then
                    && w.secret.Some? && w.location.Some? && w.location.value.body.Location?
                    && w.location.value.body.fields
                       == LocationFields(cfg.enforcedLocation, w.cr.spec.fields, id.ns, w.cr.status.uuid)
                  else w.secret.None? && w.location.None?)
  {
    hide LocationFields, Rejected, Provided;
    FollowedKeeps(cfg, v, id, data);
    var x := v.(cr := v.cr.(finalizer := true), request := Some(Reviewed(cfg, v.request.value)));
    ProvidedServes(cfg, x, id, data);
    assert forall st :: Rejected(x, st).secret.None? && Rejected(x, st).location.None? by { RejectedServesNot(x); }
  }

  lemma ProvidedServes(cfg: Config, x: View, id: Id, data: int)
    ensures var w := Provided(cfg, x, id, data);
            && w.secret.Some? && w.location.Some? && w.location.value.body.Location?
            && w.location.value.body.fields
               == LocationFields(cfg.enforcedLocation, x.cr.spec.fields, id.ns, x.cr.status.uuid)
  {
    hide LocationFields;
  }

  lemma RejectedServesNot(x: View)
    ensures forall st :: Rejected(x, st).secret.None? && Rejected(x, st).location.None?
  {
  }

  /** From any reachable state with a valid spec and no half-initialised request, two
      undisturbed passes reach a state that a third leaves as it is, resource versions aside;
      and there, with the spec the request holds, secret and location exist, with the enforced
      spec, exactly when the decision is to approve. */
  lemma PassesStabilise(cfg: Config, s: Store, id: Id, token1: string, token2: string, token3: string)
    requires CanPass(cfg, s, id, token1) && !(s.crs[id].status.uuid != "" && HalfInitialised(s, id))
    requires |token2| == |token3| == UuidLength
    ensures var s2 := Pass(cfg, Pass(cfg, s, id, token1).store, id, token2).store;
            && SameButVersions(s2, Pass(cfg, s2, id, token3).store)
            && s2.crs[id].spec == s.crs[id].spec && FollowsDecision(cfg, s2, id)
  {
    hide Inv, HalfInitialised, Pass, Leads, Complete, Passed, Entered, DataOf, LocationError, SameButVersions, HasSource;
    var s1 := Pass(cfg, s, id, token1).store;
    FirstPass(cfg, s, id, token1);
    var s2 := Pass(cfg, s1, id, token2).store;
    LaterPass(cfg, s1, id, token2);
    var s3 := Pass(cfg, s2, id, token3).store;
    LaterPass(cfg, s2, id, token3);
    var uuid := s1.crs[id].status.uuid;
    SecondPassFollows(cfg, s1, s2, id, token2);
    ThirdPassStays(cfg, s1, s2, s3, id, token2, token3);
  }

  lemma ThirdPassStays(cfg: Config, s1: Store, s2: Store, s3: Store, id: Id, token2: string, token3: string)
    requires id in s1.crs && id in s2.crs && id in s3.crs && |token2| == |token3| == UuidLength
    requires Complete(cfg, s1, id, ViewOf(s1, id)) && s2.secrets == s1.secrets && s2.crs[id].spec == s1.crs[id].spec
    requires ViewOf(s2, id) == Passed(cfg, Entered(ViewOf(s1, id), id, token2), id, DataOf(s1, id, s1.crs[id].spec.fields))
    requires Complete(cfg, s2, id, ViewOf(s2, id))
    requires ViewOf(s3, id) == Passed(cfg, Entered(ViewOf(s2, id), id, token3), id, DataOf(s2, id, s2.crs[id].spec.fields))
    requires Leads(s2, s3, id, s2.crs[id].status.uuid, ViewOf(s3, id))
    ensures SameButVersions(s2, s3)
  {
    hide Passed, Entered, LocationError, SameButVersions, SameElsewhere, Tidy, HasSource;
    PassedTwice(cfg, ViewOf(s1, id), id, DataOf(s1, id, s1.crs[id].spec.fields), token2, token3);
    SameViewSameStore(s2, s3, id, s2.crs[id].status.uuid);
  }

  lemma SecondPassFollows(cfg: Config, s1: Store, s2: Store, id: Id, token2: string)
    requires id in s1.crs && id in s2.crs && |token2| == UuidLength
    requires Complete(cfg, s1, id, ViewOf(s1, id))
    requires ViewOf(s2, id) == Passed(cfg, Entered(ViewOf(s1, id), id, token2), id, DataOf(s1, id, s1.crs[id].spec.fields))
    requires Complete(cfg, s2, id, ViewOf(s2, id))
    ensures FollowsDecision(cfg, s2, id)
  {
    hide Passed, Entered, LocationError, SameElsewhere, Tidy, LocationFields, DataOf;
    var v1 := Entered(ViewOf(s1, id), id, token2);
    EnteredKeeps(ViewOf(s1, id), id, token2);
    PassedFollows(cfg, v1, id, DataOf(s1, id, s1.crs[id].spec.fields));
  }

  // ---- When a stable state is written to again ----

  /** What a view that a pass leaves as it is says about the single steps. */
  ghost predicate Stable(cfg: Config, s: Store, id: Id, v: View) {
    && Complete(cfg, s, id, v) && v.cr.status.phase != Unset && HasAccepted(v.cr.status) && v.cr.finalizer
    && Reviewed(cfg, v.request.value) == v.request.value
    && Followed(cfg, v, id, DataOf(s, id, v.cr.spec.fields)) == v
  }

  predicate IsApproved(v: View) {
    && v.request.Some? && v.request.value.body.Request? && v.request.value.body.source.Some?
    && v.request.value.body.source.value.fields == v.cr.spec.fields && v.request.value.body.decision == Approve
  }

  lemma PassedIsStable(cfg: Config, s: Store, id: Id, v0: View, v: View, token1: string, token2: string, data: int)
    requires Complete(cfg, s, id, v) && |token1| == |token2| == UuidLength && data == DataOf(s, id, v.cr.spec.fields)
    requires HasSource(v0, v0.cr.status.uuid) && v0.cr.status.uuid != ""
    requires cfg.requireApproval || v0.request.value.body.decision == Approve
    requires v == Passed(cfg, Entered(v0, id, token1), id, data)
    requires Passed(cfg, Entered(v, id, token2), id, data) == v
    ensures Stable(cfg, s, id, v)
  {
    hide Leads, Followed, LocationError, Entered;
    EnteredKeeps(v0, id, token1);
    FollowedKeeps(cfg, Entered(v0, id, token1), id, data);
    StatusShown(s, s, id, v.cr.status.uuid, v);
    EnteredStays(v, id, token2);
    assert Reviewed(cfg, v.request.value) == v.request.value;
    assert v.(request := Some(v.request.value)) == v;
  }

  lemma SameWritesNothing(s: Store, id: Id, st: Status)
    requires id in s.crs && s.crs[id].status == st
    ensures DoWriteStatus(s, id, st) == s
  {
  }

  lemma StableEntering(cfg: Config, s: Store, id: Id, v: View, token: string)
    requires Stable(cfg, s, id, v) && |token| == UuidLength
    ensures Entering(cfg, s, id, token) == s
  {
    hide Leads, Followed, LocationError, DoWriteStatus, ViewOf;
    StatusShown(s, s, id, v.cr.status.uuid, v);
    EnteredStays(v, id, token);
    SameWritesNothing(s, id, s.crs[id].status);
  }

  lemma StableRequest(cfg: Config, s: Store, id: Id, v: View)
    requires Stable(cfg, s, id, v) && id.kind == NABSL
    ensures RequestStep(cfg, s, id) == Out(s, Continue) && FinalizerStep(s, id).store == s
  {
    hide Leads, Followed, LocationError, ViewOf, Found;
    StatusShown(s, s, id, v.cr.status.uuid, v);
    Stored(s, id, v.cr.status.uuid, v, REQUEST);
    FinalizerShown(s, id, v.cr.status.uuid, v);
    var o := s.owned[Ref(REQUEST, v.cr.status.uuid)];
    assert PhaseUpdated(o).(rv := 0) == PhaseUpdated(o.(rv := 0)) && o.(rv := 0) == v.request.value;
    assert PhaseUpdated(o) == o;
  }

  lemma FinalizerShown(s: Store, id: Id, uuid: string, v: View)
    requires Leads(s, s, id, uuid, v)
    ensures s.crs[id].finalizer == v.cr.finalizer
  {
  }

  lemma StableWithdrawn(s: Store, id: Id, v: View, st: Status)
    requires Leads(s, s, id, v.cr.status.uuid, v) && Rejected(v, st) == v && st.uuid == v.cr.status.uuid
    ensures Withdrawn(s, id, st) == Out(s, Failed)
  {
    hide Leads, ViewOf, Found;
    StatusShown(s, s, id, st.uuid, v);
    Stored(s, id, st.uuid, v, SECRET);
    Stored(s, id, st.uuid, v, BSL);
  }

  lemma StableFollowing(cfg: Config, s: Store, id: Id, v: View)
    requires Stable(cfg, s, id, v) && id.kind == NABSL && FinalizerStep(s, id).store == s
    ensures !IsApproved(v) ==> Following(cfg, s, id).store == s
  {
    hide Leads, ViewOf, Found, LocationError, Withdrawn, Rejected, Providing, DoWriteStatus;
    var uuid, st, request := v.cr.status.uuid, v.cr.status, v.request.value.body;
    StatusShown(s, s, id, uuid, v);
    EnsureLeads(cfg, s, s, id, uuid, v);
    Stored(s, id, uuid, v, REQUEST);
    assert v.(cr := v.cr.(finalizer := true)) == v;
    if request.source.value.fields != v.cr.spec.fields {
      var now := WithCondition(st, SpecUpdateApproved, false, BslSpecUpdateRejected, NoMessage);
      assert WithStatus(v, now) == v;
      SameWritesNothing(s, id, now);
    } else if request.decision != Approve {
      var phase := if request.decision == Decision.Pending || request.decision == NoDecision then New else BackingOff;
      var now := WithCondition(st.(phase := phase), AdminApproved, false, ReasonFor(request.decision), NoMessage);
      assert Rejected(v, now) == v;
      StableWithdrawn(s, id, v, now);
    }
  }

  lemma WritesOnlyGrow(s: Store, id: Id, ref: Ref, o: Owned, st: Status)
    ensures s.rv <= DoPut(s, ref, o).rv && s.rv <= DoWriteStatus(s, id, st).rv
  {
  }

  lemma SecretGrows(s: Store, id: Id)
    requires id in s.crs
    ensures s.rv <= SecretStep(s, id).store.rv
  {
    hide Found, DoPut, DoWriteStatus;
    forall ref, o ensures s.rv <= DoPut(s, ref, o).rv { WritesOnlyGrow(s, id, ref, o, EmptyStatus); }
    forall t: Store, st ensures t.rv <= DoWriteStatus(t, id, st).rv { WritesOnlyGrow(t, id, Ref(BSL, ""), NewObject(id, "", Credentials(0)), st); }
  }

  lemma LocationGrows(cfg: Config, s: Store, id: Id)
    requires id in s.crs
    ensures s.rv <= LocationStep(cfg, s, id).store.rv
  {
    hide Found, DoPut, DoWriteStatus, LocationFields;
    forall ref, o ensures s.rv <= DoPut(s, ref, o).rv { WritesOnlyGrow(s, id, ref, o, EmptyStatus); }
    forall t: Store, st ensures t.rv <= DoWriteStatus(t, id, st).rv { WritesOnlyGrow(t, id, Ref(BSL, ""), NewObject(id, "", Credentials(0)), st); }
  }

  lemma ProvidingGrows(cfg: Config, s: Store, id: Id)
    requires id in s.crs
    ensures s.rv <= Providing(cfg, s, id).store.rv
  {
    hide Found, SecretStep, LocationStep, DoWriteStatus;
    SecretGrows(s, id);
    var s7 := SecretStep(s, id).store;
    LocationGrows(cfg, s7, id);
    var s8 := LocationStep(cfg, s7, id).store;
    forall st ensures s8.rv <= DoWriteStatus(s8, id, st).rv { WritesOnlyGrow(s8, id, Ref(BSL, ""), NewObject(id, "", Credentials(0)), st); }
  }

  lemma ApprovedWrites(cfg: Config, s: Store, id: Id, v: View)
    requires Stable(cfg, s, id, v) && id.kind == NABSL && IsApproved(v) && FinalizerStep(s, id).store == s
    ensures s.rv < Following(cfg, s, id).store.rv
  {
    hide Leads, ViewOf, Found, LocationError, Withdrawn, Rejected, Providing, LocationFields;
    var uuid := v.cr.status.uuid;
    StatusShown(s, s, id, uuid, v);
    EnsureLeads(cfg, s, s, id, uuid, v);
    ProvidedIsCreated(cfg, v.(cr := v.cr.(finalizer := true)), id, DataOf(s, id, v.cr.spec.fields));
    assert v.cr.status.phase == Created;
    var s6 := DecisionStep(s, id, Approve).store;
    ProvidingGrows(cfg, s6, id);
  }

  lemma ProvidedIsCreated(cfg: Config, v: View, id: Id, data: int)
    ensures Provided(cfg, v, id, data).cr.status.phase == Created
  {
    hide LocationFields;
  }

  /** Once two passes have stabilised a location, a third writes nothing at all, not even a
      version, if and only if the request is not approved for the spec as it is: only an
      approved pass sets the phase to New and back to Created. */
  lemma ThirdPassWritesIffApproved(cfg: Config, s: Store, id: Id, token1: string, token2: string, token3: string)
    requires CanPass(cfg, s, id, token1) && !(s.crs[id].status.uuid != "" && HalfInitialised(s, id))
    requires |token2| == |token3| == UuidLength
    ensures var s2 := Pass(cfg, Pass(cfg, s, id, token1).store, id, token2).store;
            Pass(cfg, s2, id, token3).store == s2 <==> !IsApproved(ViewOf(s2, id))
  {
    hide Inv, HalfInitialised, Pass, Leads, Passed, Entered, DataOf, LocationError, HasSource, IsApproved, RequestStep, Following,
         Entering;
    var s1 := Pass(cfg, s, id, token1).store;
    FirstPass(cfg, s, id, token1);
    var s2 := Pass(cfg, s1, id, token2).store;
    LaterPass(cfg, s1, id, token2);
    var v1, v2, data := ViewOf(s1, id), ViewOf(s2, id), DataOf(s1, id, s1.crs[id].spec.fields);
    assert DataOf(s2, id, s2.crs[id].spec.fields) == data by { SameSecretsSameData(s1, s2, id); }
    StatusShown(s1, s1, id, s1.crs[id].status.uuid, v1);
    PassedTwice(cfg, v1, id, data, token2, token3);
    PassedIsStable(cfg, s2, id, v1, v2, token2, token3, data);
    StableEntering(cfg, s2, id, v2, token3);
    StableRequest(cfg, s2, id, v2);
    PassIs(cfg, s2, id, token3);
    StableFollowing(cfg, s2, id, v2);
    if IsApproved(v2) {
      ApprovedWrites(cfg, s2, id, v2);
    }
  }

  lemma SameSecretsSameData(s: Store, t: Store, id: Id)
    requires id in s.crs && id in t.crs && s.secrets == t.secrets && s.crs[id].spec == t.crs[id].spec
    ensures DataOf(s, id, s.crs[id].spec.fields) == DataOf(t, id, t.crs[id].spec.fields)
  {
  }

  // ---- Healing ----

  /** Over a half-initialised request a pass gets nowhere: it asks to be run again and leaves
      request, secret and location as they are. */
  lemma HalfInitialisedStalls(cfg: Config, s: Store, id: Id, token: string)
    requires CanPass(cfg, s, id, token) && s.crs[id].status.uuid != "" && HalfInitialised(s, id)
    ensures var out := Pass(cfg, s, id, token);
            && out.outcome == Requeue && HalfInitialised(out.store, id)
            && ViewOf(out.store, id).secret == ViewOf(s, id).secret
            && ViewOf(out.store, id).location == ViewOf(s, id).location
  {
    hide Inv, LocationError, Pass, RequestStep, Entering, TokenFree, Tidy, SameElsewhere, EnsureStep, FinalizerStep, WithCondition;
    PassIs(cfg, s, id, token);
    ReachableIsTidy(cfg, s, id);
    var uuid, v := s.crs[id].status.uuid, ViewOf(s, id);
    EnterLeads(cfg, s, id, uuid, v, token);
    EnteredKeeps(v, id, token);
    var s3, v3 := Entering(cfg, s, id, token), Entered(v, id, token);
    RequestLeads(cfg, s, s3, id, uuid, v3);
    var s4, v4 := RequestStep(cfg, s3, id).store, v3.(request := Some(Reviewed(cfg, v3.request.value)));
    FinalizerLeads(s, s4, id, uuid, v4);
    EnsureLeads(cfg, s, FinalizerStep(s4, id).store, id, uuid, v4.(cr := v4.cr.(finalizer := true)));
  }

  /** One collection, in either approval mode and in any interleaving, takes the half-initialised
      request away, and two undisturbed passes then leave a complete one and follow its decision. */
  lemma CollectionHeals(cfg: Config, s: Store, states: seq<Collector.Gc>, schedule: seq<OwnedKind>, id: Id,
                        token1: string, token2: string)
    requires CanPass(cfg, s, id, token1) && s.crs[id].status.uuid != "" && HalfInitialised(s, id) && |token2| == UuidLength
    requires Collector.IsCollection(cfg, s, states, schedule) && Collector.Finished(states[|schedule|])
    ensures var t := states[|schedule|].store;
            && t.crs == s.crs && Ref(REQUEST, s.crs[id].status.uuid) !in t.owned
            && var t1 := Pass(cfg, t, id, token1).store;
               var out2 := Pass(cfg, t1, id, token2);
               !HalfInitialised(t1, id) && out2.outcome != Requeue && FollowsDecision(cfg, out2.store, id)
  {
    hide Inv, LocationError, Pass, TokenFree, Collector.Moves, Collector.Finished, Leads, Passed, Entered, FollowsDecision;
    var t := states[|schedule|].store;
    Collector.CollectionIsExact(cfg, s, states, schedule, |schedule|);
    Collector.CollectionKeepsInv(cfg, s, states, schedule, |schedule|);
    BlankIsSwept(cfg, s, t, id);
    FirstPass(cfg, t, id, token1);
    var t1 := Pass(cfg, t, id, token1).store;
    LaterPass(cfg, t1, id, token2);
    var t2 := Pass(cfg, t1, id, token2).store;
    SecondPassFollows(cfg, t1, t2, id, token2);
    CompleteIsNotHalf(cfg, t1, id);
  }

  lemma CompleteIsNotHalf(cfg: Config, s: Store, id: Id)
    requires id in s.crs && Complete(cfg, s, id, ViewOf(s, id))
    ensures !HalfInitialised(s, id)
  {
  }

  lemma BlankIsSwept(cfg: Config, s: Store, t: Store, id: Id)
    requires Inv(cfg, s) && !cfg.staleReads && id in s.crs && s.crs[id].status.uuid != "" && HalfInitialised(s, id)
    requires Collector.Swept(cfg, s, t)
    ensures t.crs == s.crs && t.secrets == s.secrets && t.issued == s.issued && Ref(REQUEST, s.crs[id].status.uuid) !in t.owned
  {
    hide CrsOk, OwnersOk, DeletionsOk, FrozenOk, VersionsOk, SyncLabelsOk, OwnUuids;
    var ref := Ref(REQUEST, s.crs[id].status.uuid);
    CarrierIsIssuedTo(cfg, s, id);
    assert NameIssued(s.issued, ref, s.owned[ref]);
    assert NamedByLabel(ref, s.owned[ref]) && PlainObject(ref, s.owned[ref]);
    assert Collector.Doomed(cfg, s, ref) && ref in s.owned.Keys;
  }
}
