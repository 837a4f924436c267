/**
 The backup synchronizer: rebuilds backups of users from completed Velero backups whose
 NonAdminBackup is gone.
 */
module Synchronizer {
  import opened Objects
  import opened Specs
  import opened Cluster
  import opened Protocol
  import opened ApiClient
  import opened Sets
  import opened Steps
  import opened Naming
  import NabPass

  // ---- What one pass looks for ----

  /** The location was made for a user's location that still exists. */
  predicate OfUser(s: Store, name: string) {
    var ref := Ref(BSL, name);
    ref in s.owned && CheckMetadata(NABSL, s.owned[ref]) && OriginOf(NABSL, s.owned[ref]) in s.crs
  }

  function UserName(s: Store, name: string): string {
    if OfUser(s, name) then OriginOf(NABSL, s.owned[Ref(BSL, name)]).name else ""
  }

  predicate IsDefault(o: Owned) {
    o.body.Location? && Default in o.body.fields && o.body.fields[Default] == Flag(true)
  }

  predicate Watched(s: Store, name: string) {
    (Ref(BSL, name) in s.owned && IsDefault(s.owned[Ref(BSL, name)])) || OfUser(s, name)
  }

  predicate Syncable(s: Store, o: Owned) {
    && o.body.Backup? && o.body.completed && Selected(o)
    && CheckAnnotations(NAB, o) && ValidValue(o.labels, OriginUuid(NAB))
    && Watched(s, StrOf(o.body.fields, StorageLocation))
  }

  /** A backup to sync: its namespace is there, its NonAdminBackup is not. */
  predicate NeedsSync(s: Store, ref: Ref) {
    && ref in s.owned && ref.kind == BACKUP && Syncable(s, s.owned[ref])
    && OriginOrElse(s.owned[ref]).ns in s.namespaces && OriginOrElse(s.owned[ref]) !in s.crs
  }

  function MissingKeys(s: Store): set<Id> {
    set ref | ref in s.owned && NeedsSync(s, ref) :: OriginOrElse(s.owned[ref])
  }

  /** The user's name of the location again; nothing for the default one. */
  function RebuiltFields(s: Store, fields: Fields): Fields {
    var name := StrOf(fields, StorageLocation);
    if OfUser(s, name) then fields[StorageLocation := Str(UserName(s, name))]
    else fields - {StorageLocation}
  }

  predicate RebuiltFrom(s: Store, ref: Ref, c: Cr) {
    && NeedsSync(s, ref)
    && c == Cr(c.uid, c.rv, false, false, Some(s.owned[ref].labels[OriginUuid(NAB)]),
               Spec(RebuiltFields(s, s.owned[ref].body.fields), false), EmptyStatus)
  }

  ghost predicate Shared(s: Store) {
    exists a, b :: a != b && NeedsSync(s, a) && NeedsSync(s, b) && OriginOrElse(s.owned[a]) == OriginOrElse(s.owned[b])
  }

  /** What a pass may do, whatever order its lists come in.  It fails only on an object that
      already exists, which means that two backups share an origin. */
  ghost predicate Synced(s: Store, t: Store, ok: bool) {
    && t.owned == s.owned && t.issued == s.issued && t.clock == s.clock
    && t.namespaces == s.namespaces && t.secrets == s.secrets
    && (forall id | id in s.crs :: id in t.crs && t.crs[id] == s.crs[id])
    && (forall id | id in t.crs && id !in s.crs ::
          exists ref :: RebuiltFrom(s, ref, t.crs[id]) && OriginOrElse(s.owned[ref]) == id)
    && (t.crs.Keys == s.crs.Keys ==> t.rv == s.rv)
    && (if ok then MissingKeys(s) <= t.crs.Keys else Shared(s) && MissingKeys(s) * t.crs.Keys != {})
  }

  // ---- Convergence ----

  lemma NewKeysAreMissing(s: Store, t: Store, ok: bool, id: Id)
    requires Synced(s, t, ok) && id in t.crs && id !in s.crs
    ensures id in MissingKeys(s) && id.kind == NAB
  {
    var ref :| RebuiltFrom(s, ref, t.crs[id]) && OriginOrElse(s.owned[ref]) == id;
    OriginIsKey(s, ref);
  }

  lemma OriginIsKey(s: Store, ref: Ref)
    requires NeedsSync(s, ref)
    ensures CheckAnnotations(NAB, s.owned[ref]) && OriginOrElse(s.owned[ref]) == OriginOf(NAB, s.owned[ref])
    ensures OriginOrElse(s.owned[ref]) in MissingKeys(s)
  {
  }

  /** Why an object was rebuilt, by what is on the objects: from a completed backup with the
      controllers' labels and valid origin, whose namespace is there and whose object was not, and
      which is in the default location or in that of a user's location that is there; with its
      NACUUID as label, the user's name for the location, and all else as in the backup. */
  lemma RebuiltBecause(s: Store, t: Store, ok: bool, id: Id)
    requires Synced(s, t, ok) && id in t.crs && id !in s.crs
    ensures exists ref: Ref :: ref.kind == BACKUP && ref in s.owned &&
              var o, c := s.owned[ref], t.crs[id];
              && o.body.Backup? && o.body.completed
              && HasValue(o.labels, OadpLabel, "True") && HasValue(o.labels, ManagedByLabel, "oadp-nac-controller")
              && OriginUuid(NAB) in o.labels && 0 < |o.labels[OriginUuid(NAB)]| < 253
              && HasValue(o.annotations, OriginNamespace(NAB), id.ns) && HasValue(o.annotations, OriginName(NAB), id.name)
              && id.kind == NAB && id.ns in s.namespaces
              && c.sync == Some(o.labels[OriginUuid(NAB)]) && c.status == EmptyStatus && !c.finalizer && !c.deleting
              && !c.spec.deleteBackup
              && (forall f | f != StorageLocation ::
                    (f in c.spec.fields <==> f in o.body.fields) && (f in o.body.fields ==> c.spec.fields[f] == o.body.fields[f]))
              && var location := Ref(BSL, StrOf(o.body.fields, StorageLocation));
                 && location in s.owned
                 && (if StorageLocation in c.spec.fields then
                       && OriginNamespace(NABSL) in s.owned[location].annotations
                       && HasValue(s.owned[location].annotations, OriginName(NABSL), StrOf(c.spec.fields, StorageLocation))
                       && OriginOf(NABSL, s.owned[location]) in s.crs
                     else s.owned[location].body.Location? && Default in s.owned[location].body.fields
                          && s.owned[location].body.fields[Default] == Flag(true))
  {
    hide Synced, MissingKeys, Shared;
    NewIsRebuilt(s, t, ok, id);
    var ref :| RebuiltFrom(s, ref, t.crs[id]) && OriginOrElse(s.owned[ref]) == id;
    assert ref.kind == BACKUP && ref in s.owned;
  }

  lemma NewIsRebuilt(s: Store, t: Store, ok: bool, id: Id)
    requires Synced(s, t, ok) && id in t.crs && id !in s.crs
    ensures exists ref :: RebuiltFrom(s, ref, t.crs[id]) && OriginOrElse(s.owned[ref]) == id
  {
  }

  /** New backups of users do not change what is watched. */
  lemma WatchedStays(s: Store, t: Store, ok: bool, name: string)
    requires Synced(s, t, ok)
    ensures OfUser(t, name) == OfUser(s, name) && Watched(t, name) == Watched(s, name)
  {
    hide Syncable, MissingKeys, RebuiltFrom, NeedsSync;
    forall id: Id | id.kind != NAB ensures id in t.crs <==> id in s.crs {
      if id in t.crs && id !in s.crs {
        NewKeysAreMissing(s, t, ok, id);
      }
    }
  }

  /** A pass takes the keys it creates off the missing ones, and nothing else. */
  lemma PassTakesKeys(s: Store, t: Store, ok: bool)
    requires Synced(s, t, ok)
    ensures MissingKeys(t) == MissingKeys(s) - t.crs.Keys
  {
    hide Synced, Watched, MissingKeys;
    forall ref | ref in s.owned ensures NeedsSync(t, ref) <==> NeedsSync(s, ref) && OriginOrElse(s.owned[ref]) !in t.crs {
      MissingStays(s, t, ok, ref);
    }
    MissingKeysBy(s, t, ok);
  }

  lemma MissingStays(s: Store, t: Store, ok: bool, ref: Ref)
    requires Synced(s, t, ok) && ref in s.owned
    ensures NeedsSync(t, ref) <==> NeedsSync(s, ref) && OriginOrElse(s.owned[ref]) !in t.crs
  {
    hide Watched, MissingKeys, RebuiltFrom;
    WatchedStays(s, t, ok, StrOf(if s.owned[ref].body.Backup? then s.owned[ref].body.fields else map[], StorageLocation));
  }

  lemma MissingKeysBy(s: Store, t: Store, ok: bool)
    requires Synced(s, t, ok)
    requires forall ref | ref in s.owned :: NeedsSync(t, ref) <==> NeedsSync(s, ref) && OriginOrElse(s.owned[ref]) !in t.crs
    ensures MissingKeys(t) == MissingKeys(s) - t.crs.Keys
  {
    hide NeedsSync, RebuiltFrom;
    assert t.owned == s.owned;
    forall id ensures id in MissingKeys(t) <==> id in MissingKeys(s) && id !in t.crs {
    }
  }

  /** Every pass that finds anything to sync leaves strictly fewer keys missing, even when it
      stops half-way; when nothing is missing a pass writes nothing. */
  lemma PassConverges(s: Store, t: Store, ok: bool)
    requires Synced(s, t, ok)
    ensures MissingKeys(t) <= MissingKeys(s)
    ensures MissingKeys(s) != {} ==> |MissingKeys(t)| < |MissingKeys(s)|
    ensures MissingKeys(s) == {} ==> t == s
    ensures ok ==> MissingKeys(t) == {}
  {
    PassTakesKeys(s, t, ok);
    PassTakesSome(s, t, ok);
    hide *;
    SetShrinks(MissingKeys(s), t.crs.Keys, MissingKeys(t));
  }

  lemma SetShrinks<T>(all: set<T>, taken: set<T>, left: set<T>)
    requires left == all - taken
    ensures left <= all
    ensures (exists x :: x in all && x in taken) ==> |left| < |all|
    ensures all <= taken ==> left == {}
  {
    if x :| x in all && x in taken {
      SubsetSize(left, all - {x});
    }
  }

  lemma PassTakesSome(s: Store, t: Store, ok: bool)
    requires Synced(s, t, ok)
    ensures MissingKeys(s) != {} ==> exists id :: id in MissingKeys(s) && id in t.crs.Keys
    ensures MissingKeys(s) == {} ==> t == s
    ensures ok ==> MissingKeys(s) <= t.crs.Keys
  {
    forall id | id in t.crs && id !in s.crs ensures id in MissingKeys(s) {
      NewKeysAreMissing(s, t, ok, id);
    }
    hide MissingKeys, Shared, RebuiltFrom, NeedsSync;
    if MissingKeys(s) == {} {
      assert t.crs == s.crs;
    } else if ok {
      var id :| id in MissingKeys(s);
      assert id in t.crs.Keys;
    } else {
      var id :| id in MissingKeys(s) * t.crs.Keys;
      assert id in MissingKeys(s) && id in t.crs.Keys;
    }
  }

  ghost predicate SyncPasses(s: Store, t: Store) {
    exists ok :: Synced(s, t, ok)
  }

  ghost predicate IsSyncRun(states: seq<Store>) {
    |states| > 0 && forall i | 0 <= i < |states| - 1 :: SyncPasses(states[i], states[i + 1])
  }

  /** So as many passes as keys were missing suffice, and every further pass changes nothing. */
  lemma {:induction false} SyncConverges(states: seq<Store>, i: nat)
    requires IsSyncRun(states) && i < |states|
    ensures |MissingKeys(states[i])| <= if i <= |MissingKeys(states[0])| then |MissingKeys(states[0])| - i else 0
    ensures i > |MissingKeys(states[0])| ==> states[i] == states[i - 1]
    decreases i
  {
    hide Synced, MissingKeys;
    if i > 0 {
      SyncConverges(states, i - 1);
      assert SyncPasses(states[i - 1], states[i]);
      var ok :| Synced(states[i - 1], states[i], ok);
      PassConverges(states[i - 1], states[i], ok);
      SubsetSize(MissingKeys(states[i]), MissingKeys(states[i - 1]));
    }
  }

  // ---- The pass itself ----

  class SynchronizerReconciler {
    var store: Store

    constructor (store: Store)
      ensures this.store == store
    {
      this.store := store;
    }

    /** All objects of a kind, in some order. */
    method List(kind: OwnedKind) returns (items: seq<Ref>)
      ensures forall ref :: ref in items <==> ref in store.owned && ref.kind == kind
      ensures forall i, j | 0 <= i < j < |items| :: items[i] != items[j]
    {
      var rest := set ref | ref in store.owned && ref.kind == kind;
      ghost var all := rest;
      items := [];
      while rest != {}
        invariant rest <= all
        invariant forall ref :: ref in items <==> ref in all - rest
        invariant forall i, j | 0 <= i < j < |items| :: items[i] != items[j]
        decreases rest
      {
        var ref :| ref in rest;
        assert ref !in items;
        items := items + [ref];
        rest := rest - {ref};
      }
    }

    /** First loop: the watched locations, and the user's name of those that are a user's. */
    method WatchLocations() returns (watched: seq<string>, related: map<string, string>)
      ensures forall name :: name in watched <==> Watched(store, name)
      ensures forall name :: name in related <==> OfUser(store, name)
      ensures forall name | name in related :: related[name] == UserName(store, name)
    {
      var locations := List(BSL);
      watched, related := [], map[];
      for i := 0 to |locations|
        invariant forall name :: name in watched <==> Ref(BSL, name) in locations[..i] && Watched(store, name)
        invariant forall name :: name in related <==> Ref(BSL, name) in locations[..i] && OfUser(store, name)
        invariant forall name | name in related :: related[name] == UserName(store, name)
      {
        var ref := locations[i];
        assert locations[..i + 1] == locations[..i] + [ref];
        assert ref in locations && ref == Ref(BSL, ref.name);
        var location := store.owned[ref];
        if IsDefault(location) {
          watched := watched + [ref.name];
        }
        if CheckMetadata(NABSL, location) {
          if OriginOf(NABSL, location) !in store.crs {
            continue;
          }
          watched := watched + [ref.name];
          related := related[ref.name := OriginOf(NABSL, location).name];
        }
      }
      assert locations[..|locations|] == locations;
    }

    /** Second and third loop: of the syncable backups those whose namespace exists and whose
        NonAdminBackup does not. */
    method BackupsToSync(watched: seq<string>) returns (toSync: seq<Ref>)
      requires forall name :: name in watched <==> Watched(store, name)
      ensures forall ref :: ref in toSync <==> NeedsSync(store, ref)
      ensures forall i, j | 0 <= i < j < |toSync| :: toSync[i] != toSync[j]
    {
      var backups := List(BACKUP);
      var possible: seq<Ref> := [];
      for i := 0 to |backups|
        invariant forall ref :: ref in possible <==> ref in backups[..i] && Syncable(store, store.owned[ref])
        invariant forall a, b | 0 <= a < b < |possible| :: possible[a] != possible[b]
      {
        assert backups[..i + 1] == backups[..i] + [backups[i]];
        assert backups[i] in backups && backups[i] !in backups[..i];
        var backup := store.owned[backups[i]];
        if Selected(backup) && CheckAnnotations(NAB, backup) && ValidValue(backup.labels, OriginUuid(NAB))
           && backup.body.Backup? && backup.body.completed
        {
          if StrOf(backup.body.fields, StorageLocation) in watched {
            possible := possible + [backups[i]];
          }
        }
      }
      assert backups[..|backups|] == backups;
      toSync := [];
      for i := 0 to |possible|
        invariant forall ref :: ref in toSync <==> ref in possible[..i] && NeedsSync(store, ref)
        invariant forall a, b | 0 <= a < b < |toSync| :: toSync[a] != toSync[b]
      {
        assert possible[..i + 1] == possible[..i] + [possible[i]];
        assert possible[i] in possible && possible[i] !in possible[..i];
        var origin := OriginOrElse(store.owned[possible[i]]);
        if origin.ns !in store.namespaces {
          continue;
        }
        if origin !in store.crs {
          toSync := toSync + [possible[i]];
        }
      }
      assert possible[..|possible|] == possible;
    }

    /** Last loop: creates them, and stops at the first that already exists. */
    method Reconcile() returns (ok: bool)
      modifies this`store
      ensures Synced(old(store), store, ok)
    {
      hide NeedsSync, SyncedSoFar, Synced, OfUser, Watched;
      ghost var s := store;
      var watched, related := WatchLocations();
      var toSync := BackupsToSync(watched);
      SyncStarts(s, toSync);
      for i := 0 to |toSync|
        invariant forall ref | ref in toSync :: NeedsSync(s, ref)
        invariant SyncedSoFar(s, store, toSync[..i])
      {
        var ref := toSync[i];
        assert ref in toSync && toSync[..i + 1] == toSync[..i] + [ref];
        SyncGoesOn(s, store, toSync[..i], ref);
        var backup := store.owned[ref];
        var name := StrOf(backup.body.fields, StorageLocation);
        var fields := if name in related then backup.body.fields[StorageLocation := Str(related[name])]
                      else backup.body.fields - {StorageLocation};
        var id := OriginOrElse(backup);
        if id in store.crs {
          AlreadyExistsMeansShared(s, store, toSync, i);
          return false;
        }
        var nacuuid := backup.labels[OriginUuid(NAB)];
        store := DoCreate(store, id, Spec(fields, false), Some(nacuuid));
      }
      assert toSync[..|toSync|] == toSync;
      AllSynced(s, store, toSync);
      return true;
    }
  }

  /** The first few of the missing backups have been rebuilt. */
  ghost predicate SyncedSoFar(s: Store, t: Store, done: seq<Ref>) {
    && t.owned == s.owned && t.issued == s.issued && t.clock == s.clock
    && t.namespaces == s.namespaces && t.secrets == s.secrets
    && (forall id | id in s.crs :: id in t.crs && t.crs[id] == s.crs[id])
    && (forall id | id in t.crs && id !in s.crs ::
          exists ref :: ref in done && NeedsSync(s, ref) && OriginOrElse(s.owned[ref]) == id && RebuiltFrom(s, ref, t.crs[id]))
    && (forall ref | ref in done :: ref in s.owned && OriginOrElse(s.owned[ref]) in t.crs)
    && (done == [] ==> t == s)
  }

  lemma SyncStarts(s: Store, toSync: seq<Ref>)
    ensures SyncedSoFar(s, s, toSync[..0])
  {
  }

  /** Rebuilding one more. */
  lemma SyncGoesOn(s: Store, t: Store, done: seq<Ref>, ref: Ref)
    requires SyncedSoFar(s, t, done) && NeedsSync(s, ref)
    ensures ref in t.owned && t.owned == s.owned && s.owned[ref].body.Backup? && OriginUuid(NAB) in s.owned[ref].labels
    ensures var id := OriginOrElse(s.owned[ref]);
            id !in t.crs ==>
              SyncedSoFar(s, DoCreate(t, id, Spec(RebuiltFields(s, s.owned[ref].body.fields), false),
                                      Some(s.owned[ref].labels[OriginUuid(NAB)])), done + [ref])
  {
    hide Watched, RebuiltFields;
  }

  lemma AlreadyExistsMeansShared(s: Store, t: Store, toSync: seq<Ref>, i: nat)
    requires i < |toSync| && SyncedSoFar(s, t, toSync[..i]) && forall ref | ref in toSync :: NeedsSync(s, ref)
    requires forall a, b | 0 <= a < b < |toSync| :: toSync[a] != toSync[b]
    requires toSync[i] in s.owned && OriginOrElse(s.owned[toSync[i]]) in t.crs
    ensures Synced(s, t, false)
  {
    hide Syncable, RebuiltFrom;
    assert toSync[i] in toSync;
    var id := OriginOrElse(s.owned[toSync[i]]);
    var ref :| ref in toSync[..i] && NeedsSync(s, ref) && OriginOrElse(s.owned[ref]) == id && RebuiltFrom(s, ref, t.crs[id]);
    assert ref != toSync[i] && NeedsSync(s, toSync[i]);
    assert Shared(s);
    OriginIsKey(s, ref);
    assert id in MissingKeys(s) * t.crs.Keys;
    assert id in t.crs.Keys && id !in s.crs.Keys;
  }

  lemma AllSynced(s: Store, t: Store, toSync: seq<Ref>)
    requires SyncedSoFar(s, t, toSync) && forall ref :: ref in toSync <==> NeedsSync(s, ref)
    ensures Synced(s, t, true)
  {
    hide Syncable, RebuiltFrom;
    forall id | id in MissingKeys(s) ensures id in t.crs {
      var ref :| ref in s.owned && NeedsSync(s, ref) && OriginOrElse(s.owned[ref]) == id;
      assert ref in toSync;
    }
    if MissingKeys(s) == {} && toSync != [] {
      assert toSync[0] in toSync;
      OriginIsKey(s, toSync[0]);
      assert false;
    }
  }

  /** Every object a pass creates is one the synchronizer may create. */
  lemma MissingMayBeCreated(cfg: Config, s: Store, ref: Ref, spec: Spec)
    requires NeedsSync(s, ref)
    ensures Enabled(cfg, s, Step(Actor.Synchronizer,
                                 Create(OriginOrElse(s.owned[ref]), spec, Some(s.owned[ref].labels[OriginUuid(NAB)]))))
  {
    assert SyncSource(s, OriginOrElse(s.owned[ref]), s.owned[ref].labels[OriginUuid(NAB)]);
  }

  // ---- The round trip ----

  /** The Velero backup made from this spec, as Velero imports it again: a location it was made
      without has become the default one. */
  predicate ReImported(cfg: Config, s: Store, ns: string, user: Fields, defaultLocation: string, fields: Fields) {
    var location := NabPass.VeleroLocation(cfg, s, ns, user);
    && location.Some?
    && if location.value != "" then fields == BackupFields(cfg.enforcedBackup, user, ns, location.value)
       else fields == BackupFields(cfg.enforcedBackup, user, ns, "")[StorageLocation := Str(defaultLocation)]
  }

  /** The locations the backups of a namespace can be in: the one its owner made, with what the
      controller writes on it, and the default one, which is nobody's. */
  predicate LocationsInPlace(s: Store, ns: string, name: string, defaultLocation: string) {
    if name == "" then
      && Ref(BSL, defaultLocation) in s.owned && IsDefault(s.owned[Ref(BSL, defaultLocation)])
      && !OfUser(s, defaultLocation)
    else
      var id := Id(NABSL, ns, name);
      && id in s.crs && ValidLabel(s.crs[id].status.uuid) && ValidLabel(ns) && ValidLabel(name)
      && var ref := Ref(BSL, s.crs[id].status.uuid);
         ref in s.owned && s.owned[ref].labels == OwnerLabels(NABSL, ref.name) && s.owned[ref].annotations == OwnerAnnotations(id)
  }

  lemma LocationRoundTrip(cfg: Config, s: Store, ns: string, user: Fields, defaultLocation: string, fields: Fields)
    requires StorageLocation !in cfg.enforcedBackup
    requires LocationsInPlace(s, ns, StrOf(user, StorageLocation), defaultLocation)
    requires ReImported(cfg, s, ns, user, defaultLocation, fields)
    ensures Watched(s, StrOf(fields, StorageLocation))
    ensures StrOf(RebuiltFields(s, fields), StorageLocation) == StrOf(user, StorageLocation)
    ensures RebuiltFields(s, fields) == fields - {StorageLocation} ||
            RebuiltFields(s, fields) == fields[StorageLocation := Str(StrOf(user, StorageLocation))]
  {
    hide WithExclusions;
    var name := StrOf(user, StorageLocation);
    assert StrOf(Merged(cfg.enforcedBackup, user), StorageLocation) == name;
    var location := NabPass.VeleroLocation(cfg, s, ns, user).value;
    BackupStaysInNamespace(cfg.enforcedBackup, user, ns, location);
    if name != "" {
      var id := Id(NABSL, ns, name);
      WrittenMetadataChecks(id, location, s.owned[Ref(BSL, location)]);
    }
  }

  /** A backup of this user whose Velero object is there, complete, and whose own object is gone. */
  ghost predicate ReadyToReturn(cfg: Config, s: Store, id: Id, uuid: string, user: Fields, defaultLocation: string) {
    var ref := Ref(BACKUP, uuid);
    && id.kind == NAB && id !in s.crs && id.ns in s.namespaces
    && ValidLabel(uuid) && ValidLabel(id.ns) && ValidLabel(id.name)
    && ref in s.owned && s.owned[ref].labels == OwnerLabels(NAB, uuid) && s.owned[ref].annotations == OwnerAnnotations(id)
    && s.owned[ref].body.Backup? && s.owned[ref].body.completed
    && Found(s, BACKUP, uuid) == {ref}
    && StorageLocation !in cfg.enforcedBackup && LocationsInPlace(s, id.ns, StrOf(user, StorageLocation), defaultLocation)
    && ReImported(cfg, s, id.ns, user, defaultLocation, s.owned[ref].body.fields)
  }

  lemma ReadyIsMissing(cfg: Config, s: Store, id: Id, uuid: string, user: Fields, defaultLocation: string)
    requires ReadyToReturn(cfg, s, id, uuid, user, defaultLocation)
    ensures NeedsSync(s, Ref(BACKUP, uuid)) && OriginOrElse(s.owned[Ref(BACKUP, uuid)]) == id
  {
    hide BackupFields, Watched;
    var o := s.owned[Ref(BACKUP, uuid)];
    WrittenMetadataChecks(id, uuid, o);
    LocationRoundTrip(cfg, s, id.ns, user, defaultLocation, o.body.fields);
  }

  /** No other backup to sync claims this origin. */
  ghost predicate Alone(s: Store, id: Id, ref: Ref) {
    forall r | NeedsSync(s, r) && OriginOrElse(s.owned[r]) == id :: r == ref
  }

  /** Sync round trip: the synchronizer pass that brings the object back, as every pass that ends
      without error does, and one pass of the backup controller give it its name, its location as
      the user knows it and its NACUUID, in phase Created, and make no second Velero backup. */
  lemma SyncRoundTrip(cfg: Config, s: Store, t: Store, ok: bool, id: Id, uuid: string, user: Fields,
                      defaultLocation: string, token: string)
    requires ReadyToReturn(cfg, s, id, uuid, user, defaultLocation) && Synced(s, t, ok) && Alone(s, id, Ref(BACKUP, uuid))
    requires |token| == UuidLength && (ok || id in t.crs)
    ensures id in t.crs && t.crs[id].sync == Some(uuid) && NabPass.SyncLabelled(t.crs[id]) && !t.crs[id].deleting
    ensures StrOf(t.crs[id].spec.fields, StorageLocation) == StrOf(user, StorageLocation) && !t.crs[id].spec.deleteBackup
    ensures NabPass.VeleroLocation(cfg, t, id.ns, t.crs[id].spec.fields) == NabPass.VeleroLocation(cfg, s, id.ns, user)
    ensures var out := NabPass.SyncPass(cfg, t, id, token);
            && out.outcome == Continue && out.store.owned == s.owned
            && out.store.crs[id].status.uuid == uuid && out.store.crs[id].status.phase == Created
            && out.store.crs[id].finalizer && IsTrue(out.store.crs[id].status.conds, Queued)
            && out.store.crs[id].spec == t.crs[id].spec
  {
    hide BackupFields, Watched, NabPass.SyncPass, Found, Syncable, MissingKeys, NabPass.VeleroLocation;
    var ref := Ref(BACKUP, uuid);
    ReadyIsMissing(cfg, s, id, uuid, user, defaultLocation);
    OriginIsKey(s, ref);
    var fields := s.owned[ref].body.fields;
    LocationRoundTrip(cfg, s, id.ns, user, defaultLocation, fields);
    assert id in t.crs;
    var r :| RebuiltFrom(s, r, t.crs[id]) && OriginOrElse(s.owned[r]) == id;
    assert r == ref;
    BackWhereItWas(cfg, s, t, ok, id, user, defaultLocation, fields);
    SameBackups(s, t, uuid);
    ReturnedIsRecorded(cfg, t, id, uuid, token);
  }

  lemma BackWhereItWas(cfg: Config, s: Store, t: Store, ok: bool, id: Id, user: Fields, defaultLocation: string, fields: Fields)
    requires Synced(s, t, ok) && StorageLocation !in cfg.enforcedBackup
    requires LocationsInPlace(s, id.ns, StrOf(user, StorageLocation), defaultLocation)
    requires StrOf(RebuiltFields(s, fields), StorageLocation) == StrOf(user, StorageLocation)
    ensures NabPass.VeleroLocation(cfg, t, id.ns, RebuiltFields(s, fields)) == NabPass.VeleroLocation(cfg, s, id.ns, user)
  {
    hide OfUser, NeedsSync, MissingKeys, RebuiltFrom, RebuiltFields;
    assert StrOf(Merged(cfg.enforcedBackup, user), StorageLocation) == StrOf(user, StorageLocation);
    var back := RebuiltFields(s, fields);
    assert StrOf(Merged(cfg.enforcedBackup, back), StorageLocation) == StrOf(back, StorageLocation);
  }

  /** The pass of the backup controller over an object that came back. */
  lemma ReturnedIsRecorded(cfg: Config, t: Store, id: Id, uuid: string, token: string)
    requires id in t.crs && t.crs[id].sync == Some(uuid) && t.crs[id].status.uuid == "" && uuid != "" && !t.crs[id].deleting
    requires |token| == UuidLength && Found(t, BACKUP, uuid) == {Ref(BACKUP, uuid)} && Ref(BACKUP, uuid) in t.owned
    requires HasValue(t.owned[Ref(BACKUP, uuid)].annotations, OriginNamespace(NAB), id.ns)
    ensures var out := NabPass.SyncPass(cfg, t, id, token);
            && out.outcome == Continue && out.store.owned == t.owned
            && out.store.crs[id].status.uuid == uuid && out.store.crs[id].status.phase == Created
            && out.store.crs[id].finalizer && IsTrue(out.store.crs[id].status.conds, Queued)
            && out.store.crs[id].spec == t.crs[id].spec
  {
    hide Found;
    var s1 := NabPass.UuidStep(t, id, token).store;
    var s2 := FinalizerStep(s1, id).store;
    assert s2.owned == t.owned && s2.crs[id].status.uuid == uuid && s2.crs[id].finalizer;
    SameBackups(t, s2, uuid);
    OnlyMember(Ref(BACKUP, uuid));
  }

  lemma SameBackups(s: Store, t: Store, uuid: string)
    requires t.owned == s.owned
    ensures Found(t, BACKUP, uuid) == Found(s, BACKUP, uuid)
  {
  }

  /** Where another backup to sync claims the same origin, a pass may rebuild the object from
      that one and then stop: so being alone is what the NACUUID hangs on. */
  lemma SharedOriginMayReturnOther(s: Store, id: Id, a: Ref, b: Ref)
    requires NeedsSync(s, a) && NeedsSync(s, b) && a != b
    requires OriginOrElse(s.owned[a]) == id && OriginOrElse(s.owned[b]) == id
    ensures exists t :: Synced(s, t, false) && id in t.crs && RebuiltFrom(s, b, t.crs[id])
                        && t.crs[id].sync == Some(s.owned[b].labels[OriginUuid(NAB)])
  {
    hide Watched, RebuiltFields;
    var o := s.owned[b];
    var t := DoCreate(s, id, Spec(RebuiltFields(s, o.body.fields), false), Some(o.labels[OriginUuid(NAB)]));
    assert RebuiltFrom(s, b, t.crs[id]);
    OriginIsKey(s, b);
    assert id in MissingKeys(s) * t.crs.Keys;
    assert Synced(s, t, false);
  }

  /** A pass that does not bring the object back leaves it ready to return. */
  lemma ReadyStays(cfg: Config, s: Store, t: Store, ok: bool, id: Id, uuid: string, user: Fields, defaultLocation: string)
    requires ReadyToReturn(cfg, s, id, uuid, user, defaultLocation) && Synced(s, t, ok) && Alone(s, id, Ref(BACKUP, uuid))
    ensures id !in t.crs ==> ReadyToReturn(cfg, t, id, uuid, user, defaultLocation) && Alone(t, id, Ref(BACKUP, uuid))
  {
    hide BackupFields, Watched, Syncable, MissingKeys, RebuiltFrom, Shared;
    if id !in t.crs {
      SameBackups(s, t, uuid);
      LocationsStay(cfg, s, t, ok, id.ns, user, defaultLocation);
      forall r | NeedsSync(t, r) && OriginOrElse(t.owned[r]) == id ensures r == Ref(BACKUP, uuid) {
        MissingStays(s, t, ok, r);
      }
    }
  }

  lemma LocationsStay(cfg: Config, s: Store, t: Store, ok: bool, ns: string, user: Fields, defaultLocation: string)
    requires Synced(s, t, ok) && LocationsInPlace(s, ns, StrOf(user, StorageLocation), defaultLocation)
    requires StorageLocation !in cfg.enforcedBackup
    ensures LocationsInPlace(t, ns, StrOf(user, StorageLocation), defaultLocation)
    ensures NabPass.VeleroLocation(cfg, t, ns, user) == NabPass.VeleroLocation(cfg, s, ns, user)
  {
    hide Watched, OfUser, NeedsSync, MissingKeys, RebuiltFrom;
    assert StrOf(Merged(cfg.enforcedBackup, user), StorageLocation) == StrOf(user, StorageLocation);
    WatchedStays(s, t, ok, defaultLocation);
  }

  /** The moment at which the object comes back. */
  ghost predicate ReturnsAt(cfg: Config, states: seq<Store>, k: nat, id: Id, uuid: string, user: Fields, defaultLocation: string)
    requires k + 1 < |states|
  {
    && ReadyToReturn(cfg, states[k], id, uuid, user, defaultLocation) && Alone(states[k], id, Ref(BACKUP, uuid))
    && SyncPasses(states[k], states[k + 1]) && id in states[k + 1].crs
  }

  lemma {:induction false} ReturnsOrWaits(cfg: Config, states: seq<Store>, i: nat, id: Id, uuid: string, user: Fields,
                                          defaultLocation: string)
    requires IsSyncRun(states) && i < |states|
    requires ReadyToReturn(cfg, states[0], id, uuid, user, defaultLocation) && Alone(states[0], id, Ref(BACKUP, uuid))
    ensures || (ReadyToReturn(cfg, states[i], id, uuid, user, defaultLocation) && Alone(states[i], id, Ref(BACKUP, uuid)))
            || (exists k: nat :: k < i && ReturnsAt(cfg, states, k, id, uuid, user, defaultLocation))
    decreases i
  {
    hide ReadyToReturn, Alone, Synced;
    if i > 0 {
      ReturnsOrWaits(cfg, states, i - 1, id, uuid, user, defaultLocation);
      assert SyncPasses(states[i - 1], states[i]);
      if ReadyToReturn(cfg, states[i - 1], id, uuid, user, defaultLocation) && Alone(states[i - 1], id, Ref(BACKUP, uuid)) {
        var ok :| Synced(states[i - 1], states[i], ok);
        ReadyStays(cfg, states[i - 1], states[i], ok, id, uuid, user, defaultLocation);
        if id in states[i].crs {
          assert ReturnsAt(cfg, states, i - 1, id, uuid, user, defaultLocation);
        }
      }
    }
  }

  /** In whatever order passes take up the backups, and however many stop half-way, the object
      is back after at most as many passes as keys were missing, and the round trip applies to
      the pass that brought it. */
  lemma EventualReturn(cfg: Config, states: seq<Store>, id: Id, uuid: string, user: Fields, defaultLocation: string)
    requires IsSyncRun(states) && |states| > |MissingKeys(states[0])|
    requires ReadyToReturn(cfg, states[0], id, uuid, user, defaultLocation) && Alone(states[0], id, Ref(BACKUP, uuid))
    ensures exists k: nat :: k < |MissingKeys(states[0])| && ReturnsAt(cfg, states, k, id, uuid, user, defaultLocation)
  {
    hide ReadyToReturn, Alone, IsSyncRun, ReturnsAt, MissingKeys;
    var n := |MissingKeys(states[0])|;
    ReturnsOrWaits(cfg, states, n, id, uuid, user, defaultLocation);
    SyncConverges(states, n);
    if ReadyToReturn(cfg, states[n], id, uuid, user, defaultLocation) {
      ReadyIsMissing(cfg, states[n], id, uuid, user, defaultLocation);
      OriginIsKey(states[n], Ref(BACKUP, uuid));
    }
  }

  /** Velero's copy of a backup: complete, in the default location if it was made without one. */
  predicate VelerosCopy(created: Owned, copy: Owned, defaultLocation: string)
    requires created.body.Backup?
  {
    var fields := created.body.fields;
    && copy.labels == created.labels && copy.annotations == created.annotations
    && copy.body.Backup? && copy.body.completed
    && copy.body.fields == if StrOf(fields, StorageLocation) == "" then fields[StorageLocation := Str(defaultLocation)] else fields
  }

  /** What the backup controller creates can come back: whatever happened in between, if Velero
      has its copy of it and the location is still the one it went to, the round trip applies. */
  lemma CreatedBackupCanReturn(cfg: Config, s0: Store, s: Store, id: Id, defaultLocation: string)
    requires id in s0.crs && id.kind == NAB && Found(s0, BACKUP, s0.crs[id].status.uuid) == {}
    requires NabPass.BackupStep(cfg, s0, id).outcome == Continue
    requires var uuid, user := s0.crs[id].status.uuid, s0.crs[id].spec.fields;
             && id !in s.crs && id.ns in s.namespaces && ValidLabel(uuid) && ValidLabel(id.ns) && ValidLabel(id.name)
             && Ref(BACKUP, uuid) in s.owned && Found(s, BACKUP, uuid) == {Ref(BACKUP, uuid)}
             && StorageLocation !in cfg.enforcedBackup
             && LocationsInPlace(s, id.ns, StrOf(user, StorageLocation), defaultLocation)
             && NabPass.VeleroLocation(cfg, s, id.ns, user) == NabPass.VeleroLocation(cfg, s0, id.ns, user)
    requires var made := NabPass.BackupStep(cfg, s0, id).store.owned;
             var ref := Ref(BACKUP, s0.crs[id].status.uuid);
             ref in made && made[ref].body.Backup? && VelerosCopy(made[ref], s.owned[ref], defaultLocation)
    ensures ReadyToReturn(cfg, s, id, s0.crs[id].status.uuid, s0.crs[id].spec.fields, defaultLocation)
  {
    hide BackupFields, LocationsInPlace, NabPass.VeleroLocation, NabPass.Recorded;
    var uuid, user := s0.crs[id].status.uuid, s0.crs[id].spec.fields;
    var location := NabPass.VeleroLocation(cfg, s0, id.ns, user);
    BackupStaysInNamespace(cfg.enforcedBackup, user, id.ns, location.value);
    AskedIffNamed(cfg, s0, id.ns, user);
  }

  lemma AskedIffNamed(cfg: Config, s: Store, ns: string, fields: Fields)
    ensures var location := NabPass.VeleroLocation(cfg, s, ns, fields);
            location.Some? ==> (location.value == "" <==> StrOf(Merged(cfg.enforcedBackup, fields), StorageLocation) == "")
  {
  }
}
