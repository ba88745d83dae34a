/**
 `GatewayKey`: the (datacenter, partition) pair that addresses a set of mesh
 gateways, its string encoding `partition.datacenter` (the partition is left
 out when it is the default one), the permissive decoder, and the
 (datacenter, partition) order used to sort keys.
 */
module Gateway {
  import opened Strings
  import opened Partitions

  datatype GatewayKey = GatewayKey(datacenter: string, partition: string)

  const Separator: char := '.'

  /** `GatewayKey.String`. */
  function KeyString(k: GatewayKey): (s: string)
    ensures IsDefaultPartition(k.partition) ==> s == k.datacenter
    ensures !IsDefaultPartition(k.partition) ==> s == k.partition + [Separator] + k.datacenter
  {
    if IsDefaultPartition(k.partition) then k.datacenter
    else k.partition + [Separator] + k.datacenter
  }

  /** `gatewayKeyFromString`: everything before the first separator is the
      partition and the rest the datacenter; a string without a separator is
      a bare datacenter name in the default partition. Never fails. */
  function KeyFromString(s: string): (k: GatewayKey)
    ensures Separator !in s ==> k == GatewayKey(s, DefaultPartitionName)
    ensures Separator in s ==>
              Separator !in k.partition && s == k.partition + [Separator] + k.datacenter
  {
    var split := SplitOnce(s, Separator);
    if |split| == 1 then GatewayKey(split[0], DefaultPartitionName)
    else GatewayKey(split[1], split[0])
  }

  /** `GatewayKey.IsEmpty`. The empty key encodes as the empty string and
      matches the local default partition with no datacenter; decoding its
      encoding gives the default partition spelled out, which is not empty. */
  predicate IsEmpty(k: GatewayKey)
    ensures IsEmpty(k) ==> KeyString(k) == "" && Matches(k, "", DefaultPartitionName)
    ensures IsEmpty(k) ==> KeyFromString(KeyString(k)) == GatewayKey("", DefaultPartitionName)
  {
    k.partition == "" && k.datacenter == ""
  }

  /** `GatewayKey.Matches`: a key matches exactly its own datacenter with any
      spelling of its own partition. */
  predicate Matches(k: GatewayKey, dc: string, partition: string)
    ensures Matches(k, dc, partition) <==>
              dc == k.datacenter && Canonical(k) == Canonical(GatewayKey(dc, partition))
  {
    EqualPartitions(k.partition, partition) && k.datacenter == dc
  }

  /** `k` with its partition spelled canonically (the empty name becomes the default name). */
  function Canonical(k: GatewayKey): (c: GatewayKey)
    ensures c.datacenter == k.datacenter && EqualPartitions(c.partition, k.partition)
    ensures c.partition != ""
  {
    k.(partition := PartitionOrDefault(k.partition))
  }

  /** Decoding undoes encoding, up to the spelling of the default partition,
      provided the partition has no separator and, when the partition is
      elided, the datacenter has none either. */
  lemma DecodeEncode(k: GatewayKey)
    requires Separator !in k.partition
    requires IsDefaultPartition(k.partition) ==> Separator !in k.datacenter
    ensures KeyFromString(KeyString(k)) == Canonical(k)
    ensures Matches(KeyFromString(KeyString(k)), k.datacenter, k.partition)
  {
    if !IsDefaultPartition(k.partition) {
      SplitOnceOfJoin(k.partition, Separator, k.datacenter);
    }
  }

  /** Without the second condition above the round trip breaks: a dotted
      datacenter in the default partition decodes as a partition prefix. */
  lemma DecodeEncodeDottedDatacenter()
    ensures KeyFromString(KeyString(GatewayKey("east.one", ""))) == GatewayKey("one", "east")
  {
    var dotted := "east" + [Separator] + "one";
    SplitOnceOfJoin("east", Separator, "one");
    assert KeyString(GatewayKey("east.one", "")) == dotted by {
      assert dotted == "east.one";
    }
  }

  /** A string without a separator always decodes to that datacenter in the default partition. */
  lemma DecodeBareDatacenter(s: string)
    requires Separator !in s
    ensures KeyFromString(s) == GatewayKey(s, DefaultPartitionName)
    ensures KeyString(KeyFromString(s)) == s
  {
  }

  /** The strings that encoding can produce (for partitions without a
      separator): those whose text before the first separator, if any, is not
      a default partition name. */
  predicate IsCanonicalKeyString(s: string) {
    Separator !in s || !IsDefaultPartition(s[..IndexOf(s, Separator)])
  }

  /** Encoding undoes decoding exactly on the canonical key strings. */
  lemma EncodeDecode(s: string)
    ensures KeyString(KeyFromString(s)) == s <==> IsCanonicalKeyString(s)
  {
    if Separator in s {
      var k := KeyFromString(s);
      var i := IndexOf(s, Separator);
      SplitOnceOfJoin(k.partition, Separator, k.datacenter);
      assert s[..i] == k.partition;
      if IsDefaultPartition(k.partition) {
        assert |KeyString(k)| < |s|;
      }
    }
  }

  /** Decoding yields the empty key for the lone separator and nothing else. */
  lemma DecodeIsEmpty(s: string)
    ensures IsEmpty(KeyFromString(s)) <==> s == [Separator]
  {
    if s == [Separator] {
      SplitOnceOfJoin("", Separator, "");
    }
  }

  /** `Matches` does not distinguish the empty partition name from the default name. */
  lemma MatchesDefaultAlias(k: GatewayKey, dc: string)
    ensures Matches(k, dc, "") <==> Matches(k, dc, DefaultPartitionName)
    ensures Matches(k, dc, "") <==> k.datacenter == dc && IsDefaultPartition(k.partition)
  {
  }

  /** The sort order of `GatewayKeys`: by datacenter, then by partition. */
  predicate KeyLess(a: GatewayKey, b: GatewayKey) {
    if a.datacenter != b.datacenter then Less(a.datacenter, b.datacenter)
    else Less(a.partition, b.partition)
  }

  /** `KeyLess` is a strict total order, so sorting by it leaves no freedom. */
  lemma KeyLessStrictTotal(a: GatewayKey, b: GatewayKey, c: GatewayKey)
    ensures !KeyLess(a, a)
    ensures KeyLess(a, b) ==> !KeyLess(b, a)
    ensures KeyLess(a, b) && KeyLess(b, c) ==> KeyLess(a, c)
    ensures a == b || KeyLess(a, b) || KeyLess(b, a)
  {
    LessIrreflexive(a.partition);
    LessAsymmetric(a.datacenter, b.datacenter);
    LessAsymmetric(a.partition, b.partition);
    LessTrichotomous(a.datacenter, b.datacenter);
    LessTrichotomous(a.partition, b.partition);
    if KeyLess(a, b) && KeyLess(b, c) {
      if a.datacenter != b.datacenter && b.datacenter != c.datacenter {
        LessTransitive(a.datacenter, b.datacenter, c.datacenter);
        LessAsymmetric(a.datacenter, c.datacenter);
        if a.datacenter == c.datacenter {
          LessIrreflexive(a.datacenter);
        }
      } else if a.datacenter == b.datacenter && b.datacenter == c.datacenter {
        LessTransitive(a.partition, b.partition, c.partition);
      }
    }
  }
}
