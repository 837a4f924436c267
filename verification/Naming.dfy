/**
 Generated object names: GenerateNacObjectUUID and ComputePrefixForObjectStorage.
 */
module Naming {

  const MaximumNacObjectNameLength := 63
  const UuidLength := 36

  function Dashed(part: string): string {
    if part == "" then "" else part + "-"
  }

  function Min(a: int, b: int): int {
    if a < b then a else b
  }

  /** Up to 25 characters of namespace and name are kept when the whole does not fit. */
  function Generated(ns: string, name: string, uuid: string): string
    requires |uuid| == UuidLength
  {
    var whole := Dashed(ns) + Dashed(name) + uuid;
    var room := MaximumNacObjectNameLength - UuidLength - 2;
    if |whole| <= MaximumNacObjectNameLength then whole
    else
      var keptNs := ns[..Min(|ns|, room)];
      Dashed(keptNs) + Dashed(name[..Min(|name|, room - |keptNs|)]) + uuid
  }

  method GenerateNacObjectUUID(ns: string, name: string, uuid: string) returns (nacObjectName: string)
    requires |uuid| == UuidLength
    ensures nacObjectName == Generated(ns, name, uuid)
  {
    var namespace, nacName := ns, name;
    nacObjectName := uuid;
    if |nacName| > 0 {
      nacObjectName := nacName + "-" + nacObjectName;
    }
    if |namespace| > 0 {
      nacObjectName := namespace + "-" + nacObjectName;
    }
    assert nacObjectName == Dashed(ns) + Dashed(name) + uuid;
    if |nacObjectName| > MaximumNacObjectNameLength {
      var remainingLength := MaximumNacObjectNameLength - |uuid|;
      if |namespace| > remainingLength - 1 - 1 {
        namespace := namespace[..remainingLength - 1 - 1];
        nacObjectName := namespace + "-" + uuid;
        assert name[..0] == "";
      } else {
        assert ns[..|ns|] == ns;
        remainingLength := remainingLength - |namespace| - 1 - 1;
        nacName := nacName[..remainingLength];
        nacObjectName := uuid;
        if |nacName| > 0 {
          nacObjectName := nacName + "-" + nacObjectName;
        }
        if |namespace| > 0 {
          nacObjectName := namespace + "-" + nacObjectName;
        }
      }
    }
  }

  predicate EndsWith(s: string, suffix: string) {
    |suffix| <= |s| && s[|s| - |suffix|..] == suffix
  }

  /** A generated name is a legal label value, ends in its UUID, keeps a namespace of at most
      25 characters whole, and is nothing but the joined parts when those fit. */
  lemma GeneratedNameBounds(ns: string, name: string, uuid: string)
    requires |uuid| == UuidLength
    ensures var g := Generated(ns, name, uuid);
            && UuidLength <= |g| <= MaximumNacObjectNameLength
            && EndsWith(g, uuid)
            && (|ns| <= 25 ==> Dashed(ns) <= g)
            && (|Dashed(ns) + Dashed(name)| <= 27 <==> g == Dashed(ns) + Dashed(name) + uuid)
  {
  }

  /** Distinct UUIDs give distinct names, whatever was cut off. */
  lemma GeneratedNamesDiffer(ns1: string, name1: string, uuid1: string, ns2: string, name2: string, uuid2: string)
    requires |uuid1| == |uuid2| == UuidLength
    requires uuid1 != uuid2
    ensures Generated(ns1, name1, uuid1) != Generated(ns2, name2, uuid2)
  {
    GeneratedNameBounds(ns1, name1, uuid1);
    GeneratedNameBounds(ns2, name2, uuid2);
  }

  function PrefixFor(ns: string, customPrefix: string): string {
    if |customPrefix| > 0 then ns + "/" + customPrefix else ns
  }

  /** Two namespaces never share an object-storage prefix: namespace names hold no slash. */
  lemma PrefixesAreDisjoint(ns1: string, prefix1: string, ns2: string, prefix2: string)
    requires '/' !in ns1 && '/' !in ns2
    requires PrefixFor(ns1, prefix1) == PrefixFor(ns2, prefix2)
    ensures ns1 == ns2 && prefix1 == prefix2
  {
    var p1, p2 := PrefixFor(ns1, prefix1), PrefixFor(ns2, prefix2);
    assert p1[..|ns1|] == ns1 && p2[..|ns2|] == ns2;
    assert forall i | 0 <= i < |ns1| :: p1[i] == ns1[i] && ns1[i] != '/';
    assert forall i | 0 <= i < |ns2| :: p2[i] == ns2[i] && ns2[i] != '/';
    assert (|prefix1| > 0 ==> p1[|ns1|] == '/') && (|prefix2| > 0 ==> p2[|ns2|] == '/');
    if |ns1| == |ns2| && |prefix1| > 0 && |prefix2| > 0 {
      assert p1[|ns1| + 1..] == prefix1 && p2[|ns2| + 1..] == prefix2;
    }
  }
}
