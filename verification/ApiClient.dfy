/**
 The API server as one worker sees it.  Before every call the rest of the world may write,
 as its schedule says; a call may fail before or after taking effect, as the fault list
 says; and reads may be stale, if the configuration says so.  All three are arbitrary
 inputs, so what is proved of a method holds for every adversary.
 */
module ApiClient {
  import opened Objects
  import opened Cluster
  import opened Protocol
  import opened Runs
  import opened Interference
  import opened Naming
  import opened Sets

  datatype Error = NotFound | Conflict | AlreadyExists | Ambiguous | Broken
  datatype Result<+T> = Ok(value: T) | Err(error: Error)

  datatype Change = WasCreated | WasUpdated | Unchanged

  datatype Fault = NoFault | FailsBefore | FailsAfter

  /** A copy that some read may have returned: older than the stored version, or equal to it. */
  predicate Seen(s: Store, id: Id, c: Cr) {
    CrOk(s.rv, s.issued, id, c) && (id in s.crs && s.crs[id].rv == c.rv ==> s.crs[id] == c)
  }

  predicate SeenObject(s: Store, ref: Ref, o: Owned) {
    o.rv <= s.rv && (ref in s.owned && s.owned[ref].rv == o.rv ==> s.owned[ref] == o)
  }

  /** What is left of a past read: the copy is still a version that was, and an object that
      held its finalizer still is as it was but for spec and deletion mark. */
  ghost predicate Knows(cfg: Config, s: Store, id: Id, c: Cr) {
    && Seen(s, id, c)
    && (!cfg.staleReads && c.finalizer ==>
          && id in s.crs && s.crs[id].finalizer && s.crs[id].status == c.status
          && (c.deleting ==> s.crs[id].deleting))
    && (!cfg.staleReads ==> SyncLabelOk(cfg.reimports, s.issued, id, c))
    && (!cfg.staleReads && c.status.uuid != "" ==> IssuedTo(s, id, c.status.uuid))
  }

  lemma KnowledgeIsStable(cfg: Config, me: Id, token: string, s: Store, t: Store, c: Cr)
    requires Rely(cfg, me, token, s, t) && Knows(cfg, s, me, c)
    ensures Knows(cfg, t, me, c)
  {
    hide TokenFree, SourceOf, ShapeOk;
  }

  /** A worker's own write to an object in the OADP namespace leaves its knowledge as it is. */
  lemma StillKnown(cfg: Config, me: Id, token: string, s: Store, met: Store, t: Store, c: Cr)
    requires Rely(cfg, me, token, s, met) && Knows(cfg, s, me, c)
    requires t.crs == met.crs && t.issued == met.issued && met.rv <= t.rv
    ensures Knows(cfg, met, me, c) && Knows(cfg, t, me, c)
  {
    hide ShapeOk;
    KnowledgeIsStable(cfg, me, token, s, met, c);
  }

  lemma CurrentIsKnown(cfg: Config, s: Store, id: Id)
    requires Inv(cfg, s) && id in s.crs
    ensures Knows(cfg, s, id, s.crs[id])
  {
    hide NamesOk, IssuedNames, BackupsOk, OwnersOk, RequestsOk, PlainOk, DeletionsOk, FrozenOk, VersionsOk, ShapeOk;
    assert CrOk(s.rv, s.issued, id, s.crs[id]);
  }

  lemma StoredIsSeen(cfg: Config, s: Store, ref: Ref)
    requires Inv(cfg, s) && ref in s.owned
    ensures SeenObject(s, ref, s.owned[ref])
  {
    hide CrsOk, NamesOk, OwnershipOk, FrozenOk;
  }

  /** The result of a lookup by label: what the Get...ByLabel helpers return. */
  ghost function Matching(s: Store, kind: OwnedKind, key: LabelKey, value: string): set<Ref> {
    set ref | ref in s.owned && ref.kind == kind && HasValue(s.owned[ref].labels, key, value)
  }

  /** Every object of the kind in the namespace, once. */
  ghost predicate IsListing(crs: Crs, kind: Kind, ns: string, items: seq<(Id, Cr)>) {
    && (forall e | e in items :: e.0 in crs && e.0.kind == kind && e.0.ns == ns && crs[e.0] == e.1)
    && (forall id | id in crs && id.kind == kind && id.ns == ns :: (id, crs[id]) in items)
    && (forall i, j | 0 <= i < j < |items| :: items[i].0 != items[j].0)
  }

  class Client {
    const cfg: Config
    const me: Id
    const token: string
    const audited: bool

    var store: Store
    var schedule: seq<seq<Step>>
    var faults: seq<Fault>
    var staleCopies: seq<Cr>
    var staleLists: seq<Option<(Ref, Owned)>>

    ghost var states: seq<Store>
    ghost var trace: seq<Step>
    ghost var writes: seq<(Store, Op)>   // this worker's own writes, and the states they met

    ghost predicate Valid()
      reads this
    {
      && |token| == UuidLength && ValidConfig(cfg)
      && (audited ==> IsRun(cfg, states, trace) && states[|trace|] == store && Inv(cfg, store))
    }

    /** Nobody else writes and nothing fails. */
    ghost predicate Quiet()
      reads this
    {
      schedule == [] && faults == [] && !cfg.staleReads
    }

    constructor (cfg: Config, me: Id, token: string, audited: bool, store: Store,
                 schedule: seq<seq<Step>>, faults: seq<Fault>,
                 staleCopies: seq<Cr>, staleLists: seq<Option<(Ref, Owned)>>,
                 ghost states: seq<Store>, ghost trace: seq<Step>)
      requires |token| == UuidLength && ValidConfig(cfg)
      requires audited ==> IsRun(cfg, states, trace) && states[|trace|] == store
      ensures Valid() && this.cfg == cfg && this.me == me && this.token == token && this.audited == audited
      ensures this.store == store && this.schedule == schedule && this.faults == faults && writes == []
      ensures this.states == states && this.trace == trace
    {
      this.cfg, this.me, this.token, this.audited, this.store := cfg, me, token, audited, store;
      this.schedule, this.faults, this.staleCopies, this.staleLists := schedule, faults, staleCopies, staleLists;
      this.states, this.trace, this.writes := states, trace, [];
      new;
      if audited {
        RunKeepsInv(cfg, states, trace, |trace|);
      }
    }

    /** One write enters the run. */
    method Log(step: Step)
      requires Valid() && (audited ==> Enabled(cfg, store, step))
      modifies this`store, this`states, this`trace
      ensures Valid() && store == Apply(old(store), step.op)
    {
      if audited {
        StepKeepsInv(cfg, store, step);
      }
      store := Apply(store, step.op);
      states := states + [store];
      trace := trace + [step];
    }

    /** The rest of the world gets its turn. */
    method Turn() returns (fault: Fault)
      requires Valid()
      modifies this`store, this`states, this`trace, this`schedule, this`faults
      ensures Valid()
      ensures audited ==> Rely(cfg, me, token, old(store), store)
      ensures old(Quiet()) ==> Quiet() && store == old(store) && fault == NoFault
    {
      RelyReflexive(cfg, me, token, store);
      fault := NoFault;
      if |faults| > 0 {
        fault, faults := faults[0], faults[1..];
      }
      if |schedule| > 0 {
        var batch := schedule[0];
        schedule := schedule[1..];
        for i := 0 to |batch|
          invariant Valid()
          invariant audited ==> Rely(cfg, me, token, old(store), store)
        {
          var step := batch[i];
          if step.actor != Worker(me) && Enabled(cfg, store, step) && !Introduces(store, step.op, token) {
            ghost var was := store;
            if audited {
              OthersRely(cfg, me, token, store, step);
            }
            Log(step);
            if audited {
              RelyTransitive(cfg, me, token, old(store), was, store);
            }
          }
        }
      }
    }

    /** One write of this worker, in the state it meets. */
    method Commit(op: Op)
      requires Valid() && (audited ==> Enabled(cfg, store, Step(Worker(me), op)))
      modifies this`store, this`states, this`trace, this`writes
      ensures Valid() && store == Apply(old(store), op) && writes == old(writes) + [(old(store), op)]
    {
      writes := writes + [(store, op)];
      Log(Step(Worker(me), op));
    }

    // ---- Reads ----

    method Get(id: Id) returns (r: Result<Cr>)
      requires Valid()
      modifies this`store, this`states, this`trace, this`schedule, this`faults, this`staleCopies
      ensures Valid()
      ensures audited ==> Rely(cfg, me, token, old(store), store)
      ensures audited && r.Ok? ==> Knows(cfg, store, id, r.value)
      ensures !cfg.staleReads && r.Ok? ==> id in store.crs && store.crs[id] == r.value
      ensures old(Quiet()) ==>
                && Quiet() && store == old(store)
                && r == if id in store.crs then Ok(store.crs[id]) else Err(NotFound)
    {
      var fault := Turn();
      if fault != NoFault {
        return Err(Broken);
      }
      if cfg.staleReads && |staleCopies| > 0 {
        var c := staleCopies[0];
        staleCopies := staleCopies[1..];
        if Seen(store, id, c) {
          return Ok(c);
        }
      }
      if id in store.crs {
        if audited {
          CurrentIsKnown(cfg, store, id);
        }
        return Ok(store.crs[id]);
      }
      return Err(NotFound);
    }

    /** All objects of a kind in a namespace, in some order. */
    method List(kind: Kind, ns: string) returns (r: Result<seq<(Id, Cr)>>)
      requires Valid()
      modifies this`store, this`states, this`trace, this`schedule, this`faults
      ensures Valid()
      ensures audited ==> Rely(cfg, me, token, old(store), store)
      ensures r.Ok? ==> IsListing(store.crs, kind, ns, r.value)
      ensures old(Quiet()) ==> Quiet() && store == old(store) && r.Ok?
    {
      var fault := Turn();
      if fault != NoFault {
        return Err(Broken);
      }
      var rest := set id | id in store.crs && id.kind == kind && id.ns == ns;
      ghost var all := rest;
      var items: seq<(Id, Cr)> := [];
      while rest != {}
        invariant rest <= all
        invariant forall e | e in items :: e.0 in all - rest && store.crs[e.0] == e.1
        invariant forall id | id in all - rest :: (id, store.crs[id]) in items
        invariant forall i, j | 0 <= i < j < |items| :: items[i].0 != items[j].0
        decreases rest
      {
        var id :| id in rest;
        assert forall e | e in items :: e.0 != id;
        items := items + [(id, store.crs[id])];
        rest := rest - {id};
      }
      return Ok(items);
    }

    /** All objects of a kind in the OADP namespace, in some order. */
    method ListObjects(kind: OwnedKind) returns (r: Result<seq<(Ref, Owned)>>)
      requires Valid()
      modifies this`store, this`states, this`trace, this`schedule, this`faults
      ensures Valid()
      ensures audited ==> Rely(cfg, me, token, old(store), store)
      ensures r.Ok? ==>
                && (forall e | e in r.value :: e.0 in store.owned && e.0.kind == kind && store.owned[e.0] == e.1)
                && (forall ref | ref in store.owned && ref.kind == kind :: (ref, store.owned[ref]) in r.value)
                && (forall i, j | 0 <= i < j < |r.value| :: r.value[i].0 != r.value[j].0)
      ensures old(Quiet()) ==> Quiet() && store == old(store) && r.Ok?
    {
      var fault := Turn();
      if fault != NoFault {
        return Err(Broken);
      }
      var rest := set ref | ref in store.owned && ref.kind == kind;
      ghost var all := rest;
      var items: seq<(Ref, Owned)> := [];
      while rest != {}
        invariant rest <= all
        invariant forall e | e in items :: e.0 in all - rest && store.owned[e.0] == e.1
        invariant forall ref | ref in all - rest :: (ref, store.owned[ref]) in items
        invariant forall i, j | 0 <= i < j < |items| :: items[i].0 != items[j].0
        decreases rest
      {
        var ref :| ref in rest;
        assert forall e | e in items :: e.0 != ref;
        items := items + [(ref, store.owned[ref])];
        rest := rest - {ref};
      }
      return Ok(items);
    }

    /** The one object of a kind with this label, none, or an error when there are several; an
        empty label value is refused.
        sure: the list call is taken not to fail. */
    method FindByLabel(kind: OwnedKind, key: LabelKey, value: string, sure: bool := false)
      returns (r: Result<Option<(Ref, Owned)>>)
      requires Valid()
      modifies this`store, this`states, this`trace, this`schedule, this`faults, this`staleLists
      ensures Valid()
      ensures audited ==> Rely(cfg, me, token, old(store), store)
      ensures r.Ok? && r.value.Some? ==>
                var (ref, o) := r.value.value;
                ref.kind == kind && HasValue(o.labels, key, value)
      ensures audited && r.Ok? && r.value.Some? ==> SeenObject(store, r.value.value.0, r.value.value.1)
      ensures !cfg.staleReads && r.Ok? ==>
                match r.value
                case None => Matching(store, kind, key, value) == {}
                case Some((ref, o)) => Matching(store, kind, key, value) == {ref} && store.owned[ref] == o
      ensures r.Ok? ==> value != ""
      ensures old(Quiet()) ==>
                Quiet() && store == old(store) && (r.Ok? <==> value != "" && |Matching(store, kind, key, value)| <= 1)
      ensures sure && value != "" && r.Err? ==> |Matching(store, kind, key, value)| > 1
    {
      hide Inv, IsRun, Rely;
      if value == "" {
        RelyReflexive(cfg, me, token, store);
        return Err(Broken);
      }
      var fault := Turn();
      if fault != NoFault && !sure {
        return Err(Broken);
      }
      r := Lookup(kind, key, value);
    }

    method Lookup(kind: OwnedKind, key: LabelKey, value: string) returns (r: Result<Option<(Ref, Owned)>>)
      requires Valid()
      modifies this`staleLists
      ensures Valid()
      ensures r.Ok? && r.value.Some? ==>
                var (ref, o) := r.value.value;
                ref.kind == kind && HasValue(o.labels, key, value)
      ensures audited && r.Ok? && r.value.Some? ==> SeenObject(store, r.value.value.0, r.value.value.1)
      ensures !cfg.staleReads && r.Ok? ==>
                match r.value
                case None => Matching(store, kind, key, value) == {}
                case Some((ref, o)) => Matching(store, kind, key, value) == {ref} && store.owned[ref] == o
      ensures r.Err? ==> |Matching(store, kind, key, value)| > 1
    {
      hide Inv, IsRun;
      if cfg.staleReads && |staleLists| > 0 {
        var entry := staleLists[0];
        staleLists := staleLists[1..];
        if entry.None? {
          return Ok(None);
        }
        var (ref, o) := entry.value;
        if ref.kind == kind && HasValue(o.labels, key, value) && SeenObject(store, ref, o) {
          return Ok(entry);
        }
      }
      r := Current(kind, key, value);
      if audited && r.Ok? && r.value.Some? {
        StoredIsSeen(cfg, store, r.value.value.0);
        assert r.value.value.0 in Matching(store, kind, key, value);
      }
    }

    method Current(kind: OwnedKind, key: LabelKey, value: string) returns (r: Result<Option<(Ref, Owned)>>)
      requires Valid()
      ensures r.Ok? ==>
                match r.value
                case None => Matching(store, kind, key, value) == {}
                case Some((ref, o)) => Matching(store, kind, key, value) == {ref} && ref in store.owned && store.owned[ref] == o
      ensures r.Err? ==> |Matching(store, kind, key, value)| > 1
    {
      hide Inv, IsRun;
      var found := set ref | ref in store.owned && ref.kind == kind && HasValue(store.owned[ref].labels, key, value);
      assert found == Matching(store, kind, key, value);
      if found == {} {
        return Ok(None);
      }
      var ref :| ref in found;
      if found == {ref} {
        return Ok(Some((ref, store.owned[ref])));
      }
      TwoMembers(found, ref);
      return Err(Ambiguous);
    }

    method GetObject(ref: Ref) returns (r: Result<Owned>)
      requires Valid()
      modifies this`store, this`states, this`trace, this`schedule, this`faults
      ensures Valid()
      ensures audited ==> Rely(cfg, me, token, old(store), store)
      ensures r.Ok? ==> ref in store.owned && store.owned[ref] == r.value
      ensures audited && r.Ok? ==> SeenObject(store, ref, r.value)
      ensures r == Err(NotFound) ==> ref !in store.owned
      ensures old(Quiet()) ==>
                && Quiet() && store == old(store)
                && r == if ref in store.owned then Ok(store.owned[ref]) else Err(NotFound)
    {
      var fault := Turn();
      if fault != NoFault {
        return Err(Broken);
      }
      if ref in store.owned {
        if audited {
          StoredIsSeen(cfg, store, ref);
        }
        return Ok(store.owned[ref]);
      }
      return Err(NotFound);
    }

    method GetSecret(ns: string, name: string) returns (r: Result<int>)
      requires Valid()
      modifies this`store, this`states, this`trace, this`schedule, this`faults
      ensures Valid()
      ensures audited ==> Rely(cfg, me, token, old(store), store)
      ensures old(Quiet()) ==>
                && Quiet() && store == old(store)
                && r == if (ns, name) in store.secrets then Ok(store.secrets[(ns, name)]) else Err(NotFound)
    {
      var fault := Turn();
      if fault != NoFault {
        return Err(Broken);
      }
      return if (ns, name) in store.secrets then Ok(store.secrets[(ns, name)]) else Err(NotFound);
    }

    // ---- Writes ----

    /** Status().Update: replaces the status of the version the copy was made from. */
    method UpdateStatus(cr: Cr, ghost base: Cr) returns (r: Result<Cr>, ghost met: Store)
      requires Valid()
      requires audited ==>
                 && Knows(cfg, store, me, base) && cr.rv == base.rv && StatusFollows(me.kind, base.status, cr.status)
                 && (cr.status.uuid == base.status.uuid || base.sync == Some(cr.status.uuid)
                     || (EndsWith(cr.status.uuid, token) && TokenFree(store, token)))
      modifies this`store, this`states, this`trace, this`schedule, this`faults, this`writes
      ensures Valid()
      ensures audited ==> Rely(cfg, me, token, old(store), met)
      ensures (store == met && writes == old(writes) && r.Err?) ||
              (me in met.crs && met.crs[me].rv == cr.rv && store == DoWriteStatus(met, me, cr.status)
               && writes == old(writes) + [(met, WriteStatus(me, cr.status))])
      ensures r.Ok? ==> store != met || writes != old(writes)
      ensures r.Ok? ==> me in store.crs && store.crs[me] == r.value && r.value.status == cr.status
      ensures audited && r.Ok? ==> r.value == base.(status := cr.status, rv := r.value.rv) && Knows(cfg, store, me, r.value)
      ensures audited && TokenFree(old(store), token) && cr.status.uuid == base.status.uuid ==> TokenFree(store, token)
      ensures old(Quiet()) && me in old(store).crs && old(store).crs[me].rv == cr.rv ==>
                Quiet() && met == old(store) && r.Ok? && store == DoWriteStatus(old(store), me, cr.status)
    {
      hide Inv, IsRun, Rely, TokenFree, ShapeOk;
      var fault := Turn();
      met := store;
      if audited {
        KnowledgeIsStable(cfg, me, token, old(store), store, base);
      }
      if fault == FailsBefore {
        return Err(Broken), met;
      }
      if me !in store.crs {
        return Err(NotFound), met;
      }
      if store.crs[me].rv != cr.rv {
        return Err(Conflict), met;
      }
      if audited && cr.status.uuid != base.status.uuid && base.sync != Some(cr.status.uuid) {
        FreshNameUnused(store, token, cr.status.uuid);
      }
      if audited && TokenFree(store, token) && cr.status.uuid == base.status.uuid {
        OthersLeaveToken(cfg, store, WriteStatus(me, cr.status), token);
      }
      Commit(WriteStatus(me, cr.status));
      if audited {
        CurrentIsKnown(cfg, store, me);
      }
      if fault == FailsAfter {
        return Err(Broken), met;
      }
      return Ok(store.crs[me]), met;
    }

    /** Update with the finalizer put on or taken off. */
    method UpdateFinalizer(cr: Cr, ghost base: Cr, on: bool) returns (r: Result<Option<Cr>>, ghost met: Store)
      requires Valid()
      requires audited ==>
                 && Knows(cfg, store, me, base) && cr == base.(finalizer := on)
                 && (if on then base.status.uuid != "" && !base.deleting
                     else base.deleting && base.finalizer &&
                          (!cfg.staleReads ==> NothingProtected(cfg.reimports, store.owned, me, base.status.uuid)))
      modifies this`store, this`states, this`trace, this`schedule, this`faults, this`writes
      ensures Valid()
      ensures audited ==> Rely(cfg, me, token, old(store), met)
      ensures (store == met && writes == old(writes) && r.Err?) ||
              (me in met.crs && met.crs[me].rv == cr.rv && store == DoWriteFinalizer(met, me, on)
               && writes == old(writes) + [(met, WriteFinalizer(me, on))])
      ensures r.Ok? ==> r.value == (if me in store.crs then Some(store.crs[me]) else None)
      ensures audited && r.Ok? && on ==>
                && r.value.Some? && r.value.value == base.(finalizer := true, rv := r.value.value.rv)
                && Knows(cfg, store, me, r.value.value)
      ensures old(Quiet()) && me in old(store).crs && old(store).crs[me].rv == cr.rv ==>
                Quiet() && met == old(store) && r.Ok? && store == DoWriteFinalizer(old(store), me, on)
    {
      var fault := Turn();
      met := store;
      if audited {
        KnowledgeIsStable(cfg, me, token, old(store), store, base);
      }
      if fault == FailsBefore {
        return Err(Broken), met;
      }
      if me !in store.crs {
        return Err(NotFound), met;
      }
      if store.crs[me].rv != cr.rv {
        return Err(Conflict), met;
      }
      Commit(WriteFinalizer(me, on));
      if audited && me in store.crs {
        CurrentIsKnown(cfg, store, me);
      }
      if fault == FailsAfter {
        return Err(Broken), met;
      }
      return Ok(if me in store.crs then Some(store.crs[me]) else None), met;
    }

    /** Delete checks no version. */
    method Delete(id: Id) returns (r: Result<()>, ghost met: Store)
      requires Valid()
      modifies this`store, this`states, this`trace, this`schedule, this`faults, this`writes
      ensures Valid()
      ensures audited ==> Rely(cfg, me, token, old(store), met)
      ensures (store == met && writes == old(writes) && r.Err?) ||
              (id in met.crs && store == DoDelete(met, id) && writes == old(writes) + [(met, Op.Delete(id))])
      ensures old(Quiet()) ==>
                && Quiet() && met == old(store)
                && (if id in met.crs then r.Ok? && store == DoDelete(met, id) else r == Err(NotFound) && store == met)
    {
      var fault := Turn();
      met := store;
      if fault == FailsBefore {
        return Err(Broken), met;
      }
      if id !in store.crs {
        return Err(NotFound), met;
      }
      Commit(Op.Delete(id));
      if fault == FailsAfter {
        return Err(Broken), met;
      }
      return Ok(()), met;
    }

    /** Creates an object; the server stamps the creation time.  The caller shows that the
        write is one it may make in every state the rest of the world may leave. */
    method CreateObject(ref: Ref, o: Owned) returns (r: Result<Owned>, ghost met: Store)
      requires Valid()
      requires audited ==>
                 forall t: Store | Rely(cfg, me, token, store, t) && Inv(cfg, t) && ref !in t.owned ::
                   WorkerMayPut(cfg, t, me, ref, Stamped(t, o))
      modifies this`store, this`states, this`trace, this`schedule, this`faults, this`writes
      ensures Valid()
      ensures audited ==> Rely(cfg, me, token, old(store), met)
      ensures (store == met && writes == old(writes) && r.Err?) ||
              (ref !in met.owned && store == DoPut(met, ref, Stamped(met, o))
               && writes == old(writes) + [(met, Put(ref, Stamped(met, o)))])
      ensures r.Ok? ==> ref in store.owned && store.owned[ref] == r.value
      ensures old(Quiet()) ==>
                && Quiet() && met == old(store)
                && (if ref !in met.owned then r.Ok? && store == DoPut(met, ref, Stamped(met, o))
                    else r == Err(AlreadyExists) && store == met)
    {
      var fault := Turn();
      met := store;
      if fault == FailsBefore {
        return Err(Broken), met;
      }
      if ref in store.owned {
        return Err(AlreadyExists), met;
      }
      Commit(Put(ref, Stamped(store, o)));
      if fault == FailsAfter {
        return Err(Broken), met;
      }
      return Ok(store.owned[ref]), met;
    }

    /** Replaces the version of an object that was read. */
    method UpdateObject(ref: Ref, o: Owned, ghost base: Owned) returns (r: Result<Owned>, ghost met: Store)
      requires Valid()
      requires audited ==> SeenObject(store, ref, base) && o.rv == base.rv
      requires audited ==>
                 forall t: Store | Rely(cfg, me, token, store, t) && Inv(cfg, t) && ref in t.owned && t.owned[ref] == base ::
                   WorkerMayPut(cfg, t, me, ref, o)
      modifies this`store, this`states, this`trace, this`schedule, this`faults, this`writes
      ensures Valid()
      ensures audited ==> Rely(cfg, me, token, old(store), met)
      ensures (store == met && writes == old(writes) && r.Err?) ||
              (ref in met.owned && met.owned[ref].rv == o.rv && (audited ==> met.owned[ref] == base)
               && store == DoPut(met, ref, o) && writes == old(writes) + [(met, Put(ref, o))])
      ensures r.Ok? ==> ref in store.owned && store.owned[ref] == r.value
      ensures r.Err? && r.error != Broken ==> store == met && writes == old(writes)
      ensures old(Quiet()) && ref in old(store).owned && old(store).owned[ref].rv == o.rv ==>
                Quiet() && met == old(store) && r.Ok? && store == DoPut(met, ref, o)
    {
      var fault := Turn();
      met := store;
      if fault == FailsBefore {
        return Err(Broken), met;
      }
      if ref !in store.owned {
        return Err(NotFound), met;
      }
      if store.owned[ref].rv != o.rv {
        return Err(Conflict), met;
      }
      Commit(Put(ref, o));
      if fault == FailsAfter {
        return Err(Broken), met;
      }
      return Ok(store.owned[ref]), met;
    }

    /** A merge patch: changes whatever version is stored. */
    method PatchObject(ref: Ref, change: Owned -> Owned) returns (r: Result<Owned>, ghost met: Store)
      requires Valid()
      requires audited ==>
                 forall t: Store | Rely(cfg, me, token, store, t) && Inv(cfg, t) && ref in t.owned ::
                   WorkerMayPut(cfg, t, me, ref, change(t.owned[ref]))
      modifies this`store, this`states, this`trace, this`schedule, this`faults, this`writes
      ensures Valid()
      ensures audited ==> Rely(cfg, me, token, old(store), met)
      ensures (store == met && writes == old(writes) && r.Err?) ||
              (ref in met.owned && store == DoPut(met, ref, change(met.owned[ref]))
               && writes == old(writes) + [(met, Put(ref, change(met.owned[ref])))])
      ensures old(Quiet()) && ref in old(store).owned ==>
                Quiet() && met == old(store) && r.Ok? && store == DoPut(met, ref, change(met.owned[ref]))
    {
      var fault := Turn();
      met := store;
      if fault == FailsBefore {
        return Err(Broken), met;
      }
      if ref !in store.owned {
        return Err(NotFound), met;
      }
      Commit(Put(ref, change(store.owned[ref])));
      if fault == FailsAfter {
        return Err(Broken), met;
      }
      return Ok(store.owned[ref]), met;
    }

    /** controllerutil.CreateOrUpdate.  found: the caller hands in an object it found, which
        the server will not create anew. */
    method CreateOrUpdate(ref: Ref, blank: Owned, found: bool, change: Owned -> Owned, ghost known: Cr)
      returns (r: Result<Change>)
      requires Valid() && MakesOneBody(change) && ref.kind != REQUEST
      requires audited ==>
                 Knows(cfg, store, me, known) && MayEnsure(cfg, me, token, store, ref, blank, found, change)
      modifies this`store, this`states, this`trace, this`schedule, this`faults, this`writes
      ensures Valid()
      ensures audited ==> Knows(cfg, store, me, known)
      ensures audited && Freezes(cfg, known.status.uuid) && me.kind == NABSL && known.finalizer && Alive(store.crs, me) ==>
                Alive(old(store).crs, me)
      ensures audited && Freezes(cfg, known.status.uuid) && me.kind == NABSL && known.finalizer && Alive(store.crs, me)
              && SourceOf(old(store).owned, known.status.uuid).Some? ==>
                SourceOf(store.owned, known.status.uuid) == SourceOf(old(store).owned, known.status.uuid)
      ensures old(Quiet()) && (found ==> ref in old(store).owned) ==>
                && Quiet() && r.Ok?
                && (if ref !in old(store).owned then r.value == WasCreated && store == DoPut(old(store), ref, change(blank))
                    else
                      var was := old(store).owned[ref];
                      && store == DoPut(old(store), ref, change(was))
                      && r.value == if change(was) == was then Unchanged else WasUpdated)
    {
      hide Inv, IsRun, Rely, Seen, WorkerMayPut, SourceOf, MayEnsure;
      ghost var s0 := store;
      var got := GetObject(ref);
      if audited {
        KnowledgeIsStable(cfg, me, token, s0, store, known);
        MayEnsureStays(cfg, me, token, s0, store, ref, blank, found, change);
        SourceStays(cfg, me, token, s0, store, known);
      }
      if got.Err? && (got.error != NotFound || found) {
        return Err(Broken);
      }
      ghost var s1 := store;
      if got.Err? {
        if audited {
          EnsureMayCreate(cfg, me, token, store, ref, blank, found, change);
        }
        var created, met := CreateObject(ref, change(blank));
        if audited {
          StillKnown(cfg, me, token, s1, met, store, known);
          SourceStays(cfg, me, token, s1, met, known);
          OtherKindKeepsSource(met, ref, change(blank), known.status.uuid);
        }
        return if created.Ok? then Ok(WasCreated) else Err(created.error);
      }
      var changed := change(got.value);
      if changed == got.value {
        return Ok(Unchanged);
      }
      if audited {
        EnsureMayUpdate(cfg, me, token, store, ref, blank, found, change, got.value);
      }
      var updated, met := UpdateObject(ref, changed, got.value);
      if audited {
        StillKnown(cfg, me, token, s1, met, store, known);
        SourceStays(cfg, me, token, s1, met, known);
        OtherKindKeepsSource(met, ref, changed, known.status.uuid);
      }
      return if updated.Ok? then Ok(WasUpdated) else Err(updated.error);
    }

    method RemoveObject(ref: Ref) returns (r: Result<()>, ghost met: Store)
      requires Valid()
      requires audited ==>
                 forall t: Store | Rely(cfg, me, token, store, t) && Inv(cfg, t) :: MayRemove(cfg, t, Worker(me), ref)
      modifies this`store, this`states, this`trace, this`schedule, this`faults, this`writes
      ensures Valid()
      ensures audited ==> Rely(cfg, me, token, old(store), met)
      ensures (store == met && writes == old(writes) && r.Err?) ||
              (store == DoRemove(met, ref) && writes == old(writes) + [(met, Remove(ref))])
      ensures old(Quiet()) ==>
                && Quiet() && met == old(store)
                && (if ref in met.owned then r.Ok? && store == DoRemove(met, ref) else r == Err(NotFound) && store == met)
    {
      var fault := Turn();
      met := store;
      if fault == FailsBefore {
        return Err(Broken), met;
      }
      if ref !in store.owned {
        return Err(NotFound), met;
      }
      Commit(Remove(ref));
      if fault == FailsAfter {
        return Err(Broken), met;
      }
      return Ok(()), met;
    }
  }

  /** The mutation keeps the version and sets a body that carries no creation time. */
  ghost predicate MakesOneBody(change: Owned -> Owned) {
    forall o: Owned :: change(o).rv == o.rv && !change(o).body.Backup? && !change(o).body.Restore?
  }

  /** Whatever the rest of the world does, the mutated object is one this worker may write. */
  ghost predicate MayEnsure(cfg: Config, me: Id, token: string, s: Store, ref: Ref, blank: Owned, found: bool,
                            change: Owned -> Owned)
  {
    forall t: Store | Rely(cfg, me, token, s, t) && Inv(cfg, t) ::
      if ref in t.owned then WorkerMayPut(cfg, t, me, ref, change(t.owned[ref]))
      else !found ==> WorkerMayPut(cfg, t, me, ref, change(blank))
  }

  lemma MayEnsureStays(cfg: Config, me: Id, token: string, s: Store, t: Store, ref: Ref, blank: Owned, found: bool,
                       change: Owned -> Owned)
    requires Rely(cfg, me, token, s, t) && MayEnsure(cfg, me, token, s, ref, blank, found, change)
    ensures MayEnsure(cfg, me, token, t, ref, blank, found, change)
  {
    hide Rely, Inv, WorkerMayPut;
    forall u: Store | Rely(cfg, me, token, t, u) ensures Rely(cfg, me, token, s, u) {
      RelyTransitive(cfg, me, token, s, t, u);
    }
  }

  lemma EnsureMayCreate(cfg: Config, me: Id, token: string, s: Store, ref: Ref, blank: Owned, found: bool,
                        change: Owned -> Owned)
    requires MayEnsure(cfg, me, token, s, ref, blank, found, change) && !found && MakesOneBody(change)
    ensures forall t: Store | Rely(cfg, me, token, s, t) && Inv(cfg, t) && ref !in t.owned ::
              WorkerMayPut(cfg, t, me, ref, Stamped(t, change(blank)))
  {
    hide Rely, Inv, WorkerMayPut;
  }

  lemma EnsureMayUpdate(cfg: Config, me: Id, token: string, s: Store, ref: Ref, blank: Owned, found: bool,
                        change: Owned -> Owned, base: Owned)
    requires MayEnsure(cfg, me, token, s, ref, blank, found, change)
    ensures forall t: Store | Rely(cfg, me, token, s, t) && Inv(cfg, t) && ref in t.owned && t.owned[ref] == base ::
              WorkerMayPut(cfg, t, me, ref, change(base))
  {
    hide Rely, Inv, WorkerMayPut;
  }

  lemma SourceStays(cfg: Config, me: Id, token: string, s: Store, t: Store, c: Cr)
    requires Rely(cfg, me, token, s, t) && Knows(cfg, s, me, c)
    ensures !cfg.staleReads && c.finalizer && Alive(t.crs, me) ==> Alive(s.crs, me)
    ensures Freezes(cfg, c.status.uuid) && me.kind == NABSL && c.finalizer && Alive(t.crs, me)
            && SourceOf(s.owned, c.status.uuid).Some? ==>
              SourceOf(t.owned, c.status.uuid) == SourceOf(s.owned, c.status.uuid)
  {
    hide TokenFree, ShapeOk, RequestsMine, Extends, SourceOf;
  }

  lemma OtherKindKeepsSource(s: Store, ref: Ref, o: Owned, uuid: string)
    requires ref.kind != REQUEST
    ensures SourceOf(DoPut(s, ref, o).owned, uuid) == SourceOf(s.owned, uuid)
  {
  }

  /** The server fills in when an object was created. */
  function Stamped(s: Store, o: Owned): Owned {
    if o.body.Backup? then o.(body := Backup(o.body.fields, s.clock, o.body.completed, o.body.progress))
    else if o.body.Restore? then o.(body := Restore(o.body.fields, s.clock, o.body.completed, o.body.progress))
    else o
  }
}
