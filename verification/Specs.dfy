/**
 Administrator-enforced specs: the validation loops and the merge loops that run over
 the fields of the enforced struct, and the specs finally written for Velero.
 */
module Specs {
  import opened Objects
  import Naming

  /** No field set by both sides carries two different values. */
  predicate Agrees(enforced: Fields, user: Fields) {
    forall f | f in enforced && f in user :: enforced[f] == user[f]
  }

  /** The user's fields, completed by the enforced ones. */
  function Merged(enforced: Fields, user: Fields): Fields {
    enforced + user
  }

  /** The struct fields in declaration order; every enforced field is among them. */
  predicate Covers(order: seq<Field>, enforced: Fields) {
    forall f | f in enforced :: f in order
  }

  /** The first field, in order, on which the user contradicts the enforced spec. */
  function Violation(order: seq<Field>, enforced: Fields, user: Fields): (bad: Option<Field>)
    ensures bad.Some? ==> bad.value in enforced && bad.value in user && enforced[bad.value] != user[bad.value]
  {
    if order == [] then None
    else if order[0] in enforced && order[0] in user && enforced[order[0]] != user[order[0]] then Some(order[0])
    else Violation(order[1..], enforced, user)
  }

  lemma {:induction false} ViolationNoneMeansAgreement(order: seq<Field>, enforced: Fields, user: Fields)
    ensures Violation(order, enforced, user).None? <==>
            forall f | f in order && f in enforced && f in user :: enforced[f] == user[f]
  {
    if order != [] {
      ViolationNoneMeansAgreement(order[1..], enforced, user);
      assert forall f :: f in order <==> f == order[0] || f in order[1..];
    }
  }

  method FindViolation(order: seq<Field>, enforced: Fields, user: Fields) returns (bad: Option<Field>)
    requires Covers(order, enforced)
    ensures bad == Violation(order, enforced, user)
    ensures bad.None? <==> Agrees(enforced, user)
  {
    ViolationNoneMeansAgreement(order, enforced, user);
    for index := 0 to |order|
      invariant Violation(order, enforced, user) == Violation(order[index..], enforced, user)
    {
      var field := order[index];
      assert order[index..][1..] == order[index + 1..];
      if field in enforced && field in user && enforced[field] != user[field] {
        return Some(field);
      }
    }
    return None;
  }

  method Merge(order: seq<Field>, enforced: Fields, user: Fields) returns (merged: Fields)
    requires Covers(order, enforced)
    ensures merged == Merged(enforced, user)
  {
    merged := user;
    for index := 0 to |order|
      invariant forall f :: f in merged <==> f in user || (f in enforced && f in order[..index])
      invariant forall f | f in merged :: merged[f] == if f in user then user[f] else enforced[f]
    {
      var field := order[index];
      assert order[..index + 1] == order[..index] + [field];
      if field in enforced && field !in merged {
        merged := merged[field := enforced[field]];
      }
    }
    assert order[..|order|] == order;
  }

  /** Validation and merge agree: for a user spec that passes validation, the merge has the
      enforced value on every enforced field and the user's own value elsewhere; merging
      again changes nothing and the result passes validation again.  Without validation the
      first of these fails exactly when some field disagrees. */
  lemma MergeHonoursEnforcement(order: seq<Field>, enforced: Fields, user: Fields)
    requires Covers(order, enforced)
    ensures var m := Merged(enforced, user);
            && (Violation(order, enforced, user).None? <==> forall f | f in enforced :: m[f] == enforced[f])
            && (forall f | f !in enforced :: (f in m <==> f in user) && (f in user ==> m[f] == user[f]))
            && Merged(enforced, m) == m
            && (Violation(order, enforced, user).None? ==> Violation(order, enforced, m).None?)
  {
    ViolationNoneMeansAgreement(order, enforced, user);
    ViolationNoneMeansAgreement(order, enforced, Merged(enforced, user));
  }

  // ---- What a built spec must be, field by field ----

  /** The field as the user set it, else as the administrator enforces it, else absent. */
  predicate TakenFrom(built: Fields, f: Field, enforced: Fields, user: Fields) {
    if f in user then f in built && built[f] == user[f]
    else if f in enforced then f in built && built[f] == enforced[f]
    else f !in built
  }

  /** The list asked for: the user's, else the enforced one, else none. */
  function AskedNames(enforced: Fields, user: Fields, f: Field): seq<string> {
    if f in user then NamesOf(user, f) else NamesOf(enforced, f)
  }

  function AskedStr(enforced: Fields, user: Fields, f: Field): string {
    if f in user then StrOf(user, f) else StrOf(enforced, f)
  }

  /** The list asked for with more names at its end, or just as it is when it has the wildcard. */
  predicate Extended(built: Fields, f: Field, asked: seq<string>, more: seq<string>) {
    && (forall name | name in asked :: name in NamesOf(built, f))
    && NamesOf(built, f) == if "*" in asked then asked else asked + more
  }

  // ---- Velero backup spec ----

  const AlwaysExcludedNamespacedResources :=
    ["nonadminbackups", "nonadminrestores", "nonadminbackupstoragelocations"]
  const AlwaysExcludedClusterResources :=
    ["securitycontextconstraints", "clusterroles", "clusterrolebindings", "priorityclasses",
     "customresourcedefinitions", "virtualmachineclusterinstancetypes", "virtualmachineclusterpreferences"]
  const WildcardString := "*"

  /** Appends to a list field unless it already holds the wildcard. */
  function Excluding(fields: Fields, f: Field, more: seq<string>): Fields {
    if WildcardString in NamesOf(fields, f) then fields
    else fields[f := Names(NamesOf(fields, f) + more)]
  }

  predicate UsesNewFilters(fields: Fields) {
    || |NamesOf(fields, IncludedClusterScopedResources)| > 0
    || |NamesOf(fields, ExcludedClusterScopedResources)| > 0
    || |NamesOf(fields, IncludedNamespaceScopedResources)| > 0
    || |NamesOf(fields, ExcludedNamespaceScopedResources)| > 0
  }

  function WithExclusions(fields: Fields): Fields {
    if UsesNewFilters(fields) then
      Excluding(
        Excluding(fields, ExcludedNamespaceScopedResources, AlwaysExcludedNamespacedResources),
        ExcludedClusterScopedResources, AlwaysExcludedClusterResources)
    else
      Excluding(fields, ExcludedResources, AlwaysExcludedNamespacedResources + AlwaysExcludedClusterResources)
  }

  /** location is the Velero name of the storage location, "" for the default one. */
  function BackupFields(enforced: Fields, user: Fields, ns: string, location: string): Fields {
    var m := Merged(enforced, user)[IncludedNamespaces := Names([ns])];
    WithExclusions(if StrOf(m, StorageLocation) == "" then m else m[StorageLocation := Str(location)])
  }

  method BuildBackupFields(order: seq<Field>, enforced: Fields, user: Fields, ns: string, location: string)
    returns (spec: Fields)
    requires Covers(order, enforced)
    ensures spec == BackupFields(enforced, user, ns, location)
  {
    spec := Merge(order, enforced, user);
    spec := spec[IncludedNamespaces := Names([ns])];
    if StrOf(spec, StorageLocation) != "" {
      spec := spec[StorageLocation := Str(location)];
    }
    var haveNewResourceFilterParameters := UsesNewFilters(spec);
    if haveNewResourceFilterParameters {
      if WildcardString !in NamesOf(spec, ExcludedNamespaceScopedResources) {
        spec := spec[ExcludedNamespaceScopedResources :=
                       Names(NamesOf(spec, ExcludedNamespaceScopedResources) + AlwaysExcludedNamespacedResources)];
      }
      if WildcardString !in NamesOf(spec, ExcludedClusterScopedResources) {
        spec := spec[ExcludedClusterScopedResources :=
                       Names(NamesOf(spec, ExcludedClusterScopedResources) + AlwaysExcludedClusterResources)];
      }
    } else if WildcardString !in NamesOf(spec, ExcludedResources) {
      ghost var was := NamesOf(spec, ExcludedResources);
      ghost var before := spec;
      spec := spec[ExcludedResources := Names(NamesOf(spec, ExcludedResources) + AlwaysExcludedNamespacedResources)];
      spec := spec[ExcludedResources := Names(NamesOf(spec, ExcludedResources) + AlwaysExcludedClusterResources)];
      assert was + AlwaysExcludedNamespacedResources + AlwaysExcludedClusterResources ==
             was + (AlwaysExcludedNamespacedResources + AlwaysExcludedClusterResources);
    }
  }

  /** A resource is shut out when one of the exclusion lists names it or the wildcard. */
  predicate ShutsOut(fields: Fields, f: Field, resource: string) {
    resource in NamesOf(fields, f) || WildcardString in NamesOf(fields, f)
  }

  /** Whatever user and administrator ask for, a backup covers the user's own namespace and
      nothing else, names its location by the Velero name exactly when one was asked for, and
      leaves the non-admin resources out. */
  lemma BackupStaysInNamespace(enforced: Fields, user: Fields, ns: string, location: string)
    ensures var b := BackupFields(enforced, user, ns, location);
            var asked := StrOf(Merged(enforced, user), StorageLocation);
            && b[IncludedNamespaces] == Names([ns])
            && (asked != "" ==> StrOf(b, StorageLocation) == location)
            && (asked == "" ==> StrOf(b, StorageLocation) == "")
            && (forall r | r in AlwaysExcludedNamespacedResources ::
                  ShutsOut(b, ExcludedNamespaceScopedResources, r) || ShutsOut(b, ExcludedResources, r))
            && (forall r | r in AlwaysExcludedClusterResources ::
                  ShutsOut(b, ExcludedClusterScopedResources, r) || ShutsOut(b, ExcludedResources, r))
  {
  }

  /** One of the four new-style lists is asked for. */
  predicate AsksNewStyle(enforced: Fields, user: Fields) {
    || AskedNames(enforced, user, IncludedClusterScopedResources) != []
    || AskedNames(enforced, user, ExcludedClusterScopedResources) != []
    || AskedNames(enforced, user, IncludedNamespaceScopedResources) != []
    || AskedNames(enforced, user, ExcludedNamespaceScopedResources) != []
  }

  /** The lists that grow are the new-style ones if and only if the spec asked for has one, and
      nothing asked for is lost from them. */
  predicate ExclusionsAsAsked(b: Fields, enforced: Fields, user: Fields, namespaced: seq<string>, cluster: seq<string>) {
    if AsksNewStyle(enforced, user) then
      && TakenFrom(b, ExcludedResources, enforced, user)
      && Extended(b, ExcludedNamespaceScopedResources, AskedNames(enforced, user, ExcludedNamespaceScopedResources), namespaced)
      && Extended(b, ExcludedClusterScopedResources, AskedNames(enforced, user, ExcludedClusterScopedResources), cluster)
    else
      && TakenFrom(b, ExcludedNamespaceScopedResources, enforced, user)
      && TakenFrom(b, ExcludedClusterScopedResources, enforced, user)
      && Extended(b, ExcludedResources, AskedNames(enforced, user, ExcludedResources), namespaced + cluster)
  }

  predicate IsExclusionList(f: Field) {
    f == ExcludedResources || f == ExcludedNamespaceScopedResources || f == ExcludedClusterScopedResources
  }

  /** Every field of a built backup spec: the exclusion lists grow, the location is asked for by
      its user's name and put in by Velero's, and all other fields are the user's, else the
      enforced ones. */
  ghost predicate BackupAsAsked(b: Fields, enforced: Fields, user: Fields, ns: string, location: string) {
    && IncludedNamespaces in b && b[IncludedNamespaces] == Names([ns])
    && (if AskedStr(enforced, user, StorageLocation) == "" then TakenFrom(b, StorageLocation, enforced, user)
        else StorageLocation in b && b[StorageLocation] == Str(location))
    && ExclusionsAsAsked(b, enforced, user,
                         ["nonadminbackups", "nonadminrestores", "nonadminbackupstoragelocations"],
                         ["securitycontextconstraints", "clusterroles", "clusterrolebindings", "priorityclasses",
                          "customresourcedefinitions", "virtualmachineclusterinstancetypes",
                          "virtualmachineclusterpreferences"])
    && (forall f | f != IncludedNamespaces && f != StorageLocation && !IsExclusionList(f) :: TakenFrom(b, f, enforced, user))
  }

  lemma BackupIsAsAsked(enforced: Fields, user: Fields, ns: string, location: string)
    ensures BackupAsAsked(BackupFields(enforced, user, ns, location), enforced, user, ns, location)
  {
    hide Excluding, TakenFrom, Extended, Merged, AskedNames, AskedStr, NamesOf, StrOf, ExclusionsAsAsked, AsksNewStyle,
         UsesNewFilters;
    var merged := Merged(enforced, user);
    var m := merged[IncludedNamespaces := Names([ns])];
    var n := if StrOf(m, StorageLocation) == "" then m else m[StorageLocation := Str(location)];
    MergedIsTaken(enforced, user);
    OtherFieldsStay(merged, IncludedNamespaces, Names([ns]), enforced, user);
    OtherFieldsStay(m, StorageLocation, Str(location), enforced, user);
    assert StrOf(m, StorageLocation) == AskedStr(enforced, user, StorageLocation) by {
      assert StrOf(m, StorageLocation) == StrOf(merged, StorageLocation);
    }
    forall f | f != IncludedNamespaces
      ensures f != StorageLocation || n == m ==> TakenFrom(n, f, enforced, user) && NamesOf(n, f) == AskedNames(enforced, user, f)
    {
      assert TakenFrom(m, f, enforced, user) == TakenFrom(merged, f, enforced, user) && NamesOf(m, f) == NamesOf(merged, f);
      if n != m {
        assert f != StorageLocation ==> TakenFrom(n, f, enforced, user) == TakenFrom(m, f, enforced, user)
                                        && NamesOf(n, f) == NamesOf(m, f);
      }
    }
    ExclusionsAdded(n, enforced, user);
  }

  /** Adding the exclusions to a spec whose other fields are as asked. */
  lemma ExclusionsAdded(n: Fields, enforced: Fields, user: Fields)
    requires forall f | f != IncludedNamespaces && f != StorageLocation ::
               TakenFrom(n, f, enforced, user) && NamesOf(n, f) == AskedNames(enforced, user, f)
    ensures var b := WithExclusions(n);
            && ExclusionsAsAsked(b, enforced, user, AlwaysExcludedNamespacedResources, AlwaysExcludedClusterResources)
            && (forall f | !IsExclusionList(f) :: (f in b <==> f in n) && (f in n ==> b[f] == n[f]))
            && (forall f | !IsExclusionList(f) :: TakenFrom(b, f, enforced, user) == TakenFrom(n, f, enforced, user))
  {
    hide Excluding, TakenFrom, AskedNames, NamesOf, StrOf;
    ExcludingExtends(n, ExcludedNamespaceScopedResources, AlwaysExcludedNamespacedResources, enforced, user);
    ExcludingExtends(Excluding(n, ExcludedNamespaceScopedResources, AlwaysExcludedNamespacedResources),
                     ExcludedClusterScopedResources, AlwaysExcludedClusterResources, enforced, user);
    ExcludingExtends(n, ExcludedResources, AlwaysExcludedNamespacedResources + AlwaysExcludedClusterResources, enforced, user);
    assert AsksNewStyle(enforced, user) <==> UsesNewFilters(n);
  }

  lemma MergedIsTaken(enforced: Fields, user: Fields)
    ensures forall f :: TakenFrom(Merged(enforced, user), f, enforced, user)
    ensures forall f :: NamesOf(Merged(enforced, user), f) == AskedNames(enforced, user, f)
    ensures forall f :: StrOf(Merged(enforced, user), f) == AskedStr(enforced, user, f)
  {
  }

  lemma OtherFieldsStay(fields: Fields, f: Field, v: Value, enforced: Fields, user: Fields)
    ensures forall g | g != f :: TakenFrom(fields[f := v], g, enforced, user) == TakenFrom(fields, g, enforced, user)
    ensures forall g | g != f :: NamesOf(fields[f := v], g) == NamesOf(fields, g) && StrOf(fields[f := v], g) == StrOf(fields, g)
  {
  }

  lemma ExcludingExtends(fields: Fields, f: Field, more: seq<string>, enforced: Fields, user: Fields)
    ensures var e := Excluding(fields, f, more);
            && Extended(e, f, NamesOf(fields, f), more)
            && (forall g | g != f :: (g in e <==> g in fields) && (g in fields ==> e[g] == fields[g])
                                     && TakenFrom(e, g, enforced, user) == TakenFrom(fields, g, enforced, user)
                                     && NamesOf(e, g) == NamesOf(fields, g))
  {
  }

  // ---- Velero restore spec ----

  /** The namespace and backup are put in before the merge here, not after it. */
  function RestoreFields(enforced: Fields, user: Fields, ns: string, backup: string): Fields {
    Excluding(
      Merged(enforced, user[BackupName := Str(backup)][IncludedNamespaces := Names([ns])]),
      ExcludedResources, ["volumesnapshotclasses"])
  }

  lemma RestoreStaysInNamespace(enforced: Fields, user: Fields, ns: string, backup: string)
    ensures var r := RestoreFields(enforced, user, ns, backup);
            && r[IncludedNamespaces] == Names([ns])
            && r[BackupName] == Str(backup)
            && ShutsOut(r, ExcludedResources, "volumesnapshotclasses")
  {
  }

  /** Every field of a built restore spec: it is of this backup, into this namespace, its
      exclusion list grows, and all other fields are the user's, else the enforced ones. */
  ghost predicate RestoreAsAsked(r: Fields, enforced: Fields, user: Fields, ns: string, backup: string) {
    && IncludedNamespaces in r && r[IncludedNamespaces] == Names([ns])
    && BackupName in r && r[BackupName] == Str(backup)
    && Extended(r, ExcludedResources, AskedNames(enforced, user, ExcludedResources), ["volumesnapshotclasses"])
    && (forall f | f != IncludedNamespaces && f != BackupName && f != ExcludedResources :: TakenFrom(r, f, enforced, user))
  }

  lemma RestoreIsAsAsked(enforced: Fields, user: Fields, ns: string, backup: string)
    ensures RestoreAsAsked(RestoreFields(enforced, user, ns, backup), enforced, user, ns, backup)
  {
  }

  // ---- Velero backup storage location spec ----

  /** The enforced merge, the namespaced prefix, and the secret NAC itself keeps. */
  function LocationFields(enforced: Fields, user: Fields, ns: string, uuid: string): Fields {
    var m := Merged(enforced, user);
    var storage := if StorageType in m && m[StorageType].Bucket? then m[StorageType] else Bucket("", "", "");
    var key := if Credential in user && user[Credential].SecretKey? then user[Credential].key else "";
    m[Credential := SecretKey(uuid, key)]
     [StorageType := storage.(prefix := Naming.PrefixFor(ns, storage.prefix))]
  }

  /** The object storage of this spec, under the prefix of the namespace. */
  predicate StoredUnder(built: Fields, ns: string, storage: Value)
    requires storage.Bucket?
  {
    && StorageType in built && built[StorageType].Bucket?
    && built[StorageType].bucket == storage.bucket && built[StorageType].caCert == storage.caCert
    && built[StorageType].prefix == if storage.prefix == "" then ns else ns + "/" + storage.prefix
  }

  /** Every field of a built location spec: the user's, else the enforced one; the credential is
      the user's key in the secret kept for this NACUUID, and the object storage, the user's or
      else the enforced one, is kept under the namespace's own prefix. */
  ghost predicate LocationAsAsked(b: Fields, enforced: Fields, user: Fields, ns: string, uuid: string) {
    && (forall f | f != Credential && f != StorageType :: TakenFrom(b, f, enforced, user))
    && Credential in b && b[Credential].SecretKey? && b[Credential].secret == uuid
    && (Credential in user && user[Credential].SecretKey? ==> b[Credential].key == user[Credential].key)
    && (StorageType in user && user[StorageType].Bucket? ==> StoredUnder(b, ns, user[StorageType]))
    && (StorageType !in user && StorageType in enforced && enforced[StorageType].Bucket? ==>
          StoredUnder(b, ns, enforced[StorageType]))
    && (StorageType !in user && StorageType !in enforced ==> StoredUnder(b, ns, Bucket("", "", "")))
  }

  lemma LocationIsAsAsked(enforced: Fields, user: Fields, ns: string, uuid: string)
    ensures LocationAsAsked(LocationFields(enforced, user, ns, uuid), enforced, user, ns, uuid)
  {
  }

  /** Locations of different namespaces write under different prefixes, and none of them
      uses a secret other than the one kept under its own NACUUID. */
  lemma LocationsAreSeparate(enforced: Fields, user1: Fields, ns1: string, uuid1: string,
                             user2: Fields, ns2: string, uuid2: string)
    requires '/' !in ns1 && '/' !in ns2
    ensures var l1 := LocationFields(enforced, user1, ns1, uuid1);
            var l2 := LocationFields(enforced, user2, ns2, uuid2);
            && l1[Credential].secret == uuid1 && l2[Credential].secret == uuid2
            && (ns1 != ns2 ==> l1[StorageType].prefix != l2[StorageType].prefix)
  {
    var l1 := LocationFields(enforced, user1, ns1, uuid1);
    var l2 := LocationFields(enforced, user2, ns2, uuid2);
    if ns1 != ns2 && l1[StorageType].prefix == l2[StorageType].prefix {
      var m1, m2 := Merged(enforced, user1), Merged(enforced, user2);
      var p1 := if StorageType in m1 && m1[StorageType].Bucket? then m1[StorageType].prefix else "";
      var p2 := if StorageType in m2 && m2[StorageType].Bucket? then m2[StorageType].prefix else "";
      Naming.PrefixesAreDisjoint(ns1, p1, ns2, p2);
    }
  }
}
