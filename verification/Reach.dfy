/**
 Which states a run can come to from which.
 */
module Reach {
  import opened Objects
  import opened Cluster
  import opened Protocol
  import opened Runs
  import opened Steps

  ghost predicate Reaches(cfg: Config, s: Store, t: Store) {
    exists states: seq<Store>, trace: seq<Step> ::
      IsPiece(cfg, states, trace) && states[0] == s && states[|trace|] == t
  }

  ghost predicate Reachable(cfg: Config, t: Store) {
    exists states: seq<Store>, trace: seq<Step> :: IsRun(cfg, states, trace) && states[|trace|] == t
  }

  lemma ReachesItself(cfg: Config, s: Store)
    ensures Reaches(cfg, s, s)
  {
    assert IsPiece(cfg, [s], []);
  }

  lemma StepReaches(cfg: Config, s: Store, step: Step)
    requires Enabled(cfg, s, step)
    ensures Reaches(cfg, s, Apply(s, step.op))
  {
    hide Enabled, Apply;
    assert IsPiece(cfg, [s, Apply(s, step.op)], [step]);
  }

  lemma ReachesOn(cfg: Config, s: Store, t: Store, u: Store)
    requires Reaches(cfg, s, t) && Reaches(cfg, t, u)
    ensures Reaches(cfg, s, u)
  {
    hide Enabled, Apply;
    var states1: seq<Store>, trace1: seq<Step> :|
      IsPiece(cfg, states1, trace1) && states1[0] == s && states1[|trace1|] == t;
    var states2: seq<Store>, trace2: seq<Step> :|
      IsPiece(cfg, states2, trace2) && states2[0] == t && states2[|trace2|] == u;
    assert IsPiece(cfg, states1 + states2[1..], trace1 + trace2);
  }

  lemma ReachesKeepsInv(cfg: Config, s: Store, t: Store)
    requires Reaches(cfg, s, t) && Inv(cfg, s)
    ensures Inv(cfg, t)
  {
    hide Enabled, Apply, Inv;
    var states: seq<Store>, trace: seq<Step> :| IsPiece(cfg, states, trace) && states[0] == s && states[|trace|] == t;
    for i := 0 to |trace|
      invariant Inv(cfg, states[i])
    {
      StepKeepsInv(cfg, states[i], trace[i]);
    }
  }

  /** What a reachable state reaches is reachable. */
  lemma ReachableGoesOn(cfg: Config, s: Store, t: Store)
    requires Reachable(cfg, s) && Reaches(cfg, s, t)
    ensures Reachable(cfg, t)
  {
    hide Enabled, Apply, Start;
    var states1: seq<Store>, trace1: seq<Step> :| IsRun(cfg, states1, trace1) && states1[|trace1|] == s;
    var states2: seq<Store>, trace2: seq<Step> :| IsPiece(cfg, states2, trace2) && states2[0] == s && states2[|trace2|] == t;
    assert IsRun(cfg, states1 + states2[1..], trace1 + trace2);
  }

  lemma ReachableKeepsInv(cfg: Config, s: Store)
    requires Reachable(cfg, s)
    ensures Inv(cfg, s)
  {
    hide Enabled, Apply, Inv;
    var states: seq<Store>, trace: seq<Step> :| IsRun(cfg, states, trace) && states[|trace|] == s;
    RunKeepsInv(cfg, states, trace, |trace|);
  }

  // ---- Single writes of a worker ----

  lemma StatusReaches(cfg: Config, s: Store, id: Id, st: Status)
    requires id in s.crs && StatusFollows(id.kind, s.crs[id].status, st) && st.uuid == s.crs[id].status.uuid
    ensures Reaches(cfg, s, DoWriteStatus(s, id, st))
  {
    StepReaches(cfg, s, Step(Worker(id), WriteStatus(id, st)));
  }

  lemma PutReaches(cfg: Config, s: Store, id: Id, ref: Ref, o: Owned)
    requires WorkerMayPut(cfg, s, id, ref, o)
    ensures Reaches(cfg, s, DoPut(s, ref, o))
  {
    StepReaches(cfg, s, Step(Worker(id), Put(ref, o)));
  }

  lemma FinalizerReaches(cfg: Config, s: Store, id: Id)
    requires id in s.crs && s.crs[id].status.uuid != ""
    ensures Reaches(cfg, s, FinalizerStep(s, id).store)
  {
    StepReaches(cfg, s, Step(Worker(id), WriteFinalizer(id, true)));
  }

  lemma InitReaches(cfg: Config, s: Store, id: Id)
    requires id in s.crs && StatusFollows(id.kind, s.crs[id].status, s.crs[id].status.(phase := New))
    ensures Reaches(cfg, s, InitStep(s, id).store)
  {
    ReachesItself(cfg, s);
    StatusReaches(cfg, s, id, s.crs[id].status.(phase := New));
  }

  // ---- An object in a reachable state ----

  ghost predicate Ready(cfg: Config, s: Store, id: Id) {
    Inv(cfg, s) && !cfg.staleReads && id in s.crs
  }

  /** The object holds its finalizer and its NACUUID. */
  ghost predicate Held(cfg: Config, s: Store, id: Id) {
    Ready(cfg, s, id) && s.crs[id].finalizer && s.crs[id].status.uuid != ""
  }

  lemma ReadyShape(cfg: Config, s: Store, id: Id)
    requires Ready(cfg, s, id)
    ensures var c := s.crs[id];
            && ShapeOk(id.kind, c.status) && (c.deleting ==> c.finalizer) && (c.finalizer ==> c.status.uuid != "")
            && (c.sync.Some? ==> c.sync.value != "" && id.kind == NAB) && id.ns != "" && id.name != ""
            && (c.status.uuid != "" ==> IssuedTo(s, id, c.status.uuid))
  {
    hide NamesOk, IssuedNames, BackupsOk, OwnersOk, RequestsOk, PlainOk, DeletionsOk, FrozenOk, VersionsOk;
    assert CrOk(s.rv, s.issued, id, s.crs[id]) && SyncLabelOk(cfg.reimports, s.issued, id, s.crs[id]);
  }

  /** The only object found under a NACUUID is the one of that name. */
  lemma FoundIsRef(cfg: Config, s: Store, id: Id, kind: OwnedKind)
    requires Ready(cfg, s, id) && s.crs[id].status.uuid != "" && kind != DELETION && OwnerKind(kind) == id.kind
    ensures var uuid, ref := s.crs[id].status.uuid, Ref(kind, s.crs[id].status.uuid);
            && IssuedTo(s, id, uuid) && Found(s, kind, uuid) == (if ref in s.owned then {ref} else {})
            && (ref in s.owned ==> |Found(s, kind, uuid)| == 1 && Only(Found(s, kind, uuid)) == ref)
            && (ref in s.owned && id.kind == NABSL ==> !s.owned[ref].held)
  {
    hide Inv;
    var uuid, ref := s.crs[id].status.uuid, Ref(kind, s.crs[id].status.uuid);
    CarrierIsIssuedTo(cfg, s, id);
    NoneFoundNoneNamed(cfg, s, id, kind, uuid);
    AtMostOneFound(cfg, s, kind, uuid);
    OnlyMember(ref);
    if id.kind == NABSL {
      PlainIsNotHeld(cfg, s, id, ref, uuid);
    }
  }

  /** A status write that keeps the NACUUID, as part of a longer piece. */
  lemma WriteReaches(cfg: Config, s0: Store, s: Store, id: Id, st: Status)
    requires Inv(cfg, s0) && Reaches(cfg, s0, s) && id in s.crs && st.uuid == s.crs[id].status.uuid
    requires StatusFollows(id.kind, s.crs[id].status, st)
    ensures var t := DoWriteStatus(s, id, st);
            && Reaches(cfg, s0, t) && Inv(cfg, t) && t.owned == s.owned && t.clock == s.clock && t.issued == s.issued
            && id in t.crs && t.crs[id] == s.crs[id].(status := st, rv := t.crs[id].rv)
  {
    hide Inv, Reaches, DoWriteStatus;
    StatusReaches(cfg, s, id, st);
    ReachesOn(cfg, s0, s, DoWriteStatus(s, id, st));
    ReachesKeepsInv(cfg, s0, s);
    ReachesKeepsInv(cfg, s0, DoWriteStatus(s, id, st));
    StatusWritten(s, id, st);
    NothingIssued(cfg, s, id, st);
  }

  lemma NothingIssued(cfg: Config, s: Store, id: Id, st: Status)
    requires Inv(cfg, s) && id in s.crs && st.uuid == s.crs[id].status.uuid
    ensures DoWriteStatus(s, id, st).issued == s.issued
  {
    hide NamesOk, OwnershipOk, FrozenOk, VersionsOk;
    assert CrOk(s.rv, s.issued, id, s.crs[id]);
  }
}
