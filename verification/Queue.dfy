/**
 Queue positions: GetBackupQueueInfo and its twin for restores.
 */
module Queue {
  import opened Objects
  import opened Cluster
  import opened Protocol
  import opened Sets

  predicate Timed(kind: OwnedKind, o: Owned) {
    if kind == RESTORE then o.body.Restore? else o.body.Backup?
  }

  predicate Active(kind: OwnedKind, o: Owned) {
    Timed(kind, o) && !o.body.completed
  }

  function ActiveRefs(owned: Objs, kind: OwnedKind): set<Ref> {
    set ref | ref in owned && ref.kind == kind && Active(kind, owned[ref])
  }

  function Earlier(owned: Objs, kind: OwnedKind, created: nat): set<Ref> {
    set ref | ref in owned && ref.kind == kind && Active(kind, owned[ref]) && owned[ref].body.created < created
  }

  /** 0 for an object that is served, or that the server has not stamped yet (timestamp zero). */
  function Position(owned: Objs, kind: OwnedKind, o: Owned): nat {
    if !Active(kind, o) || o.body.created == 0 then 0 else 1 + |Earlier(owned, kind, o.body.created)|
  }

  /** items: all objects of the kind, each once, in any order. */
  ghost predicate Lists(owned: Objs, kind: OwnedKind, items: seq<(Ref, Owned)>) {
    && (forall e | e in items :: e.0 in owned && e.0.kind == kind && owned[e.0] == e.1)
    && (forall ref | ref in owned && ref.kind == kind :: (ref, owned[ref]) in items)
    && (forall i, j | 0 <= i < j < |items| :: items[i].0 != items[j].0)
  }

  method GetQueueInfo(kind: OwnedKind, items: seq<(Ref, Owned)>, target: Owned, ghost owned: Objs) returns (position: nat)
    requires Lists(owned, kind, items)
    ensures position == Position(owned, kind, target)
  {
    if !Timed(kind, target) || target.body.created == 0 {
      return 0;
    }
    if target.body.completed {
      return 0;
    }
    assert Active(kind, target);
    position := 1;
    var created := target.body.created;
    ghost var counted: set<Ref> := {};
    hide Earlier, Timed, Lists, Position, Active;
    for i := 0 to |items|
      invariant counted == set j | 0 <= j < i && items[j].0 in Earlier(owned, kind, created) :: items[j].0
      invariant position == 1 + |counted|
    {
      var (ref, o) := items[i];
      ListedEarlier(owned, kind, items, i, created);
      assert ref !in counted;
      if !Timed(kind, o) || o.body.completed {
        continue;
      }
      if o.body.created < created {
        position := position + 1;
        counted := counted + {ref};
      }
    }
    AllListed(owned, kind, items, created);
    PositionCounts(owned, kind, target, counted);
  }

  lemma PositionCounts(owned: Objs, kind: OwnedKind, target: Owned, counted: set<Ref>)
    requires Active(kind, target) && target.body.created != 0 && counted == Earlier(owned, kind, target.body.created)
    ensures Position(owned, kind, target) == 1 + |counted|
  {
  }

  lemma ListedEarlier(owned: Objs, kind: OwnedKind, items: seq<(Ref, Owned)>, i: nat, created: nat)
    requires Lists(owned, kind, items) && i < |items|
    ensures items[i].0 in Earlier(owned, kind, created) <==>
            Timed(kind, items[i].1) && !items[i].1.body.completed && items[i].1.body.created < created
    ensures forall j | 0 <= j < i :: items[j].0 != items[i].0
  {
    assert items[i] in items;
  }

  lemma AllListed(owned: Objs, kind: OwnedKind, items: seq<(Ref, Owned)>, created: nat)
    requires Lists(owned, kind, items)
    ensures Earlier(owned, kind, created) == set j | 0 <= j < |items| && items[j].0 in Earlier(owned, kind, created) :: items[j].0
  {
    forall ref | ref in Earlier(owned, kind, created)
      ensures ref in set j | 0 <= j < |items| && items[j].0 in Earlier(owned, kind, created) :: items[j].0
    {
      assert (ref, owned[ref]) in items;
      var j :| 0 <= j < |items| && items[j] == (ref, owned[ref]);
      assert items[j].0 == ref;
    }
  }

  /** Positions of active objects lie between 1 and their number, and order them exactly as
      they were created. */
  lemma PositionsEmbedOrder(owned: Objs, kind: OwnedKind, a: Ref, b: Ref)
    requires a in ActiveRefs(owned, kind) && b in ActiveRefs(owned, kind)
    requires owned[a].body.created > 0 && owned[b].body.created > 0
    ensures 1 <= Position(owned, kind, owned[a]) <= |ActiveRefs(owned, kind)|
    ensures Position(owned, kind, owned[a]) < Position(owned, kind, owned[b]) <==> owned[a].body.created < owned[b].body.created
  {
    var ea, eb := Earlier(owned, kind, owned[a].body.created), Earlier(owned, kind, owned[b].body.created);
    assert a in ActiveRefs(owned, kind) && a !in ea;
    SubsetSize(ea, ActiveRefs(owned, kind));
    if owned[a].body.created < owned[b].body.created {
      assert a in eb;
      SubsetSize(ea, eb);
    } else {
      SubsetSize(eb, ea);
    }
  }

  /** Objects complete, disappear, or appear with a time stamp no earlier than any active one. */
  ghost predicate Ages(kind: OwnedKind, was: Objs, now: Objs) {
    forall r | r in now && r.kind == kind && Active(kind, now[r]) ::
      if r in was then Active(kind, was[r]) && was[r].body.created == now[r].body.created
      else forall x | x in ActiveRefs(was, kind) :: was[x].body.created <= now[r].body.created
  }

  lemma PositionDoesNotRise(kind: OwnedKind, was: Objs, now: Objs, a: Ref)
    requires Ages(kind, was, now) && a in ActiveRefs(was, kind) && a in ActiveRefs(now, kind)
    ensures Position(now, kind, now[a]) <= Position(was, kind, was[a])
  {
    var c := now[a].body.created;
    forall r | r in Earlier(now, kind, c) ensures r in Earlier(was, kind, c) {
      assert a in ActiveRefs(was, kind);
    }
    SubsetSize(Earlier(now, kind, c), Earlier(was, kind, c));
  }

  /** Along any such run the position of an active object never rises. */
  lemma {:induction false} PositionsNeverRise(kind: OwnedKind, states: seq<Objs>, i: nat, j: nat, a: Ref)
    requires i <= j < |states| && forall k | 0 <= k < |states| - 1 :: Ages(kind, states[k], states[k + 1])
    requires forall k | i <= k <= j :: a in states[k] && a in ActiveRefs(states[k], kind)
    ensures Position(states[j], kind, states[j][a]) <= Position(states[i], kind, states[i][a])
    decreases j
  {
    hide Position, Ages;
    if i < j {
      PositionsNeverRise(kind, states, i, j - 1, a);
      PositionDoesNotRise(kind, states[j - 1], states[j], a);
    }
  }

  /** A completion moves exactly the objects created after the completed one up by one. */
  lemma CompletionMovesUp(owned: Objs, kind: OwnedKind, done: Ref, o: Owned, a: Ref)
    requires done in ActiveRefs(owned, kind) && a in ActiveRefs(owned, kind) && a != done
    requires owned[a].body.created > 0 && !Active(kind, o)
    ensures Position(owned[done := o], kind, owned[a])
            == Position(owned, kind, owned[a]) - if owned[done].body.created < owned[a].body.created then 1 else 0
  {
    var c := owned[a].body.created;
    if owned[done].body.created < c {
      assert Earlier(owned, kind, c) == Earlier(owned[done := o], kind, c) + {done};
    } else {
      assert Earlier(owned, kind, c) == Earlier(owned[done := o], kind, c);
    }
  }
}
