/**
 Mesh-gateway queries: whether a service is exported to peers, and the
 sorted list of gateway keys the gateway routes to, built from the
 federation-state gateways (keyed by datacenter) and the gateway groups
 (keyed by encoded gateway key). A federation-state entry for a datacenter
 hides the gateway groups of every partition of that datacenter.
 */
module MeshGatewayKeys {
  import opened Payloads
  import opened Strings
  import opened Partitions
  import opened Gateway
  import opened KeySort
  import opened Snapshot

  /** `configSnapshotMeshGateway.IsServiceExported`; the early exit on an
      empty map changes nothing. */
  function IsServiceExported(m: MeshGatewayState, svc: ServiceName): (exported: bool)
    ensures exported <==> svc in m.exportedServicesWithPeers
  {
    if |m.exportedServicesWithPeers| == 0 then false
    else svc in m.exportedServicesWithPeers
  }

  /** What one encoded key contributes: its decoded key, unless that key's
      datacenter is suppressed. */
  function Contribution(key: string, suppressed: set<string>): multiset<GatewayKey> {
    var gk := KeyFromString(key);
    if gk.datacenter in suppressed then multiset{} else multiset{gk}
  }

  /** The contributions of all `keys`, counted with multiplicity. */
  ghost function Decoded(keys: set<string>, suppressed: set<string>): multiset<GatewayKey>
    decreases keys
  {
    if keys == {} then multiset{}
    else
      var key :| key in keys;
      Contribution(key, suppressed) + Decoded(keys - {key}, suppressed)
  }

  /** What `GatewayKeys` must return, as a multiset: every federation-state
      key, and every gateway-group key whose datacenter has no
      federation-state entry. */
  ghost function ExpectedKeys(m: MeshGatewayState): multiset<GatewayKey> {
    Decoded(m.fedStateGateways.Keys, {}) + Decoded(m.gatewayGroups.Keys, m.fedStateGateways.Keys)
  }

  /** The same condition on a single key. */
  ghost predicate Listed(m: MeshGatewayState, gk: GatewayKey) {
    || (exists f :: f in m.fedStateGateways && KeyFromString(f) == gk)
    || (gk.datacenter !in m.fedStateGateways && exists g :: g in m.gatewayGroups && KeyFromString(g) == gk)
  }

  /** `Decoded` does not depend on which key is taken first. */
  lemma {:induction false} DecodedRemove(keys: set<string>, suppressed: set<string>, x: string)
    requires x in keys
    ensures Decoded(keys, suppressed) == Contribution(x, suppressed) + Decoded(keys - {x}, suppressed)
    decreases keys
  {
    var y :| y in keys && Decoded(keys, suppressed) == Contribution(y, suppressed) + Decoded(keys - {y}, suppressed);
    if y != x {
      DecodedRemove(keys - {y}, suppressed, x);
      DecodedRemove(keys - {x}, suppressed, y);
      assert keys - {y} - {x} == keys - {x} - {y};
    }
  }

  lemma {:induction false} DecodedMembers(keys: set<string>, suppressed: set<string>, gk: GatewayKey)
    ensures gk in Decoded(keys, suppressed) <==>
              gk.datacenter !in suppressed && exists k :: k in keys && KeyFromString(k) == gk
    decreases keys
  {
    if keys != {} {
      var x :| x in keys;
      DecodedRemove(keys, suppressed, x);
      DecodedMembers(keys - {x}, suppressed, gk);
      if KeyFromString(x) == gk && gk.datacenter !in suppressed {
        assert gk in Contribution(x, suppressed);
      }
      if gk in Decoded(keys - {x}, suppressed) {
        var k :| k in keys - {x} && KeyFromString(k) == gk;
        assert k in keys;
      }
    }
  }

  /** When no two keys decode alike, each decoded key occurs at most once. */
  lemma {:induction false} DecodedAtMostOnce(keys: set<string>, suppressed: set<string>, gk: GatewayKey)
    requires forall a, b :: a in keys && b in keys && KeyFromString(a) == KeyFromString(b) ==> a == b
    ensures Decoded(keys, suppressed)[gk] <= 1
    decreases keys
  {
    if keys != {} {
      var x :| x in keys;
      DecodedRemove(keys, suppressed, x);
      DecodedAtMostOnce(keys - {x}, suppressed, gk);
      if KeyFromString(x) == gk {
        DecodedMembers(keys - {x}, suppressed, gk);
        assert gk !in Decoded(keys - {x}, suppressed);
      }
    }
  }

  /** One step of the collection loop keeps the decoded multiset of what is
      collected plus what is pending unchanged. */
  lemma CollectStep(collected: seq<GatewayKey>, pending: set<string>, key: string, suppressed: set<string>)
    requires key in pending
    ensures var gk := KeyFromString(key);
            gk.datacenter !in suppressed ==>
              multiset(collected + [gk]) + Decoded(pending - {key}, suppressed)
              == multiset(collected) + Decoded(pending, suppressed)
    ensures KeyFromString(key).datacenter in suppressed ==>
              multiset(collected) + Decoded(pending - {key}, suppressed)
              == multiset(collected) + Decoded(pending, suppressed)
  {
    DecodedRemove(pending, suppressed, key);
  }

  /** Decodes `keys`, visited in an arbitrary order, dropping keys whose
      datacenter is in `suppressed`: one of the two collection loops of
      `GatewayKeys` (the federation-state loop suppresses nothing). */
  method CollectDecoded(keys: set<string>, suppressed: set<string>) returns (collected: seq<GatewayKey>)
    ensures multiset(collected) == Decoded(keys, suppressed)
  {
    collected := [];
    var pending := keys;
    while pending != {}
      invariant pending <= keys
      invariant multiset(collected) + Decoded(pending, suppressed) == Decoded(keys, suppressed)
      decreases |pending|
    {
      var key :| key in pending;
      CollectStep(collected, pending, key, suppressed);
      var gk := KeyFromString(key);
      if gk.datacenter !in suppressed {
        collected := collected + [gk];
      }
      pending := pending - {key};
    }
  }

  /** `configSnapshotMeshGateway.GatewayKeys`. Both maps are visited in an
      arbitrary order; the result is sorted by (datacenter, partition). */
  method GatewayKeys(m: MeshGatewayState) returns (keys: seq<GatewayKey>)
    ensures Sorted(keys)
    ensures multiset(keys) == ExpectedKeys(m)
    ensures forall gk :: gk in keys <==> Listed(m, gk)
  {
    var fromFederation := CollectDecoded(m.fedStateGateways.Keys, {});
    var fromGroups := CollectDecoded(m.gatewayGroups.Keys, m.fedStateGateways.Keys);
    keys := Sort(fromFederation + fromGroups);
    forall gk
      ensures gk in keys <==> Listed(m, gk)
    {
      assert gk in keys <==> gk in multiset(keys);
      ExpectedKeysMembers(m, gk);
    }
  }

  /** A key is expected exactly when it is listed. */
  lemma ExpectedKeysMembers(m: MeshGatewayState, gk: GatewayKey)
    ensures gk in ExpectedKeys(m) <==> Listed(m, gk)
  {
    DecodedMembers(m.fedStateGateways.Keys, {}, gk);
    DecodedMembers(m.gatewayGroups.Keys, m.fedStateGateways.Keys, gk);
  }

  /** Whatever order the maps are visited in, the result is the same. */
  lemma GatewayKeysDeterministic(m: MeshGatewayState, a: seq<GatewayKey>, b: seq<GatewayKey>)
    requires Sorted(a) && multiset(a) == ExpectedKeys(m)
    requires Sorted(b) && multiset(b) == ExpectedKeys(m)
    ensures a == b
  {
    SortedUnique(a, b);
  }

  /** The keys are strictly ordered, hence free of repeats, when the
      federation-state map is keyed by bare datacenter names and the gateway
      groups by encoded gateway keys, as their writers produce them. */
  lemma GatewayKeysStrictlySorted(m: MeshGatewayState, keys: seq<GatewayKey>)
    requires Sorted(keys) && multiset(keys) == ExpectedKeys(m)
    requires forall f :: f in m.fedStateGateways ==> Separator !in f
    requires forall g :: g in m.gatewayGroups ==> IsCanonicalKeyString(g)
    ensures StrictlySorted(keys)
  {
    var fed := m.fedStateGateways.Keys;
    var groups := m.gatewayGroups.Keys;
    forall a, b | a in groups && b in groups && KeyFromString(a) == KeyFromString(b)
      ensures a == b
    {
      EncodeDecode(a);
      EncodeDecode(b);
    }
    forall gk
      ensures ExpectedKeys(m)[gk] <= 1
    {
      DecodedAtMostOnce(fed, {}, gk);
      DecodedAtMostOnce(groups, fed, gk);
      DecodedMembers(fed, {}, gk);
      DecodedMembers(groups, fed, gk);
      if gk in Decoded(fed, {}) {
        var f :| f in fed && KeyFromString(f) == gk;
        assert gk.datacenter in fed;
      }
    }
    SortedDistinctIsStrict(keys);
  }

  /** Federation state for "dc1" alone decodes to dc1 in the default partition. */
  lemma ExampleFederationKeys(fed: set<string>)
    requires fed == {"dc1"}
    ensures Decoded(fed, {}) == multiset{GatewayKey("dc1", DefaultPartitionName)}
  {
    DecodedRemove(fed, {}, "dc1");
    assert fed - {"dc1"} == {};
    assert KeyFromString("dc1") == GatewayKey("dc1", DefaultPartitionName);
  }

  /** How the example's gateway-group keys decode. */
  lemma ExampleGroupDecodes()
    ensures KeyFromString("dc1") == GatewayKey("dc1", DefaultPartitionName)
    ensures KeyFromString("dc2") == GatewayKey("dc2", DefaultPartitionName)
    ensures KeyFromString("p1.dc1") == GatewayKey("dc1", "p1")
  {
    SplitOnceOfJoin("p1", Separator, "dc1");
    assert "p1" + [Separator] + "dc1" == "p1.dc1";
  }

  /** A single group key whose datacenter is suppressed contributes nothing. */
  lemma SuppressedGroupContributesNothing(keys: set<string>, suppressed: set<string>, key: string, rest: set<string>)
    requires key in keys && KeyFromString(key).datacenter in suppressed
    requires rest == keys - {key}
    ensures Decoded(keys, suppressed) == Decoded(rest, suppressed)
  {
    DecodedRemove(keys, suppressed, key);
  }

  /** With "dc1" suppressed, the gateway groups "dc1", "p1.dc1" and "dc2"
      contribute only dc2. */
  lemma ExampleGroupKeys(groups: set<string>, fed: set<string>)
    requires fed == {"dc1"}
    requires groups == {"dc1", "p1.dc1", "dc2"}
    ensures Decoded(groups, fed) == multiset{GatewayKey("dc2", DefaultPartitionName)}
  {
    ExampleSuppressedGroups(groups, fed);
    ExampleLastGroupKey({"dc2"}, fed);
  }

  /** Both groups of the suppressed datacenter "dc1" drop out, whatever their partition. */
  lemma ExampleSuppressedGroups(groups: set<string>, fed: set<string>)
    requires fed == {"dc1"}
    requires groups == {"dc1", "p1.dc1", "dc2"}
    ensures Decoded(groups, fed) == Decoded({"dc2"}, fed)
  {
    ExampleDropDefaultGroup(groups, fed);
    ExampleDropPartitionGroup({"p1.dc1", "dc2"}, fed);
  }

  /** The default-partition group "dc1" of the suppressed datacenter drops out. */
  lemma ExampleDropDefaultGroup(groups: set<string>, fed: set<string>)
    requires fed == {"dc1"}
    requires groups == {"dc1", "p1.dc1", "dc2"}
    ensures Decoded(groups, fed) == Decoded({"p1.dc1", "dc2"}, fed)
  {
    ExampleGroupDecodes();
    ExampleGroupRemainders();
    SuppressedGroupContributesNothing(groups, fed, "dc1", {"p1.dc1", "dc2"});
  }

  /** The group "p1.dc1" of partition p1 in the suppressed datacenter drops out too. */
  lemma ExampleDropPartitionGroup(groups: set<string>, fed: set<string>)
    requires fed == {"dc1"}
    requires groups == {"p1.dc1", "dc2"}
    ensures Decoded(groups, fed) == Decoded({"dc2"}, fed)
  {
    ExampleGroupDecodes();
    ExampleGroupRemainders();
    SuppressedGroupContributesNothing(groups, fed, "p1.dc1", {"dc2"});
  }

  /** The example's group keys are pairwise distinct, so removing one leaves the others. */
  lemma ExampleGroupRemainders()
    ensures {"dc1", "p1.dc1", "dc2"} - {"dc1"} == {"p1.dc1", "dc2"}
    ensures {"p1.dc1", "dc2"} - {"p1.dc1"} == {"dc2"}
  {
    assert "dc1" != "p1.dc1" && "dc1" != "dc2" && "p1.dc1" != "dc2" by {
      assert "dc1"[2] != "dc2"[2];
    }
  }

  /** The group "dc2" alone contributes dc2. */
  lemma ExampleLastGroupKey(rest: set<string>, fed: set<string>)
    requires fed == {"dc1"} && rest == {"dc2"}
    ensures Decoded(rest, fed) == multiset{GatewayKey("dc2", DefaultPartitionName)}
  {
    ExampleGroupDecodes();
    DecodedRemove(rest, fed, "dc2");
    assert rest - {"dc2"} == {};
  }

  /** One federation-state datacenter hides the gateway groups of all its
      partitions: with federation state for "dc1" and gateway groups "dc1",
      "p1.dc1" and "dc2", the keys are dc1 then dc2, both in the default partition. */
  lemma FederationStateHidesPartitions(m: MeshGatewayState, keys: seq<GatewayKey>)
    requires m.fedStateGateways.Keys == {"dc1"}
    requires m.gatewayGroups.Keys == {"dc1", "p1.dc1", "dc2"}
    ensures ExpectedKeys(m) == multiset{GatewayKey("dc1", DefaultPartitionName), GatewayKey("dc2", DefaultPartitionName)}
    ensures Sorted(keys) && multiset(keys) == ExpectedKeys(m) ==>
              keys == [GatewayKey("dc1", DefaultPartitionName), GatewayKey("dc2", DefaultPartitionName)]
  {
    ExampleFederationKeys(m.fedStateGateways.Keys);
    ExampleGroupKeys(m.gatewayGroups.Keys, m.fedStateGateways.Keys);
    if Sorted(keys) && multiset(keys) == ExpectedKeys(m) {
      ExampleKeysInOrder(keys);
    }
  }

  /** Sorting dc1 and dc2 of the default partition leaves dc1 first. */
  lemma ExampleKeysInOrder(keys: seq<GatewayKey>)
    requires Sorted(keys)
    requires multiset(keys) == multiset{GatewayKey("dc1", DefaultPartitionName), GatewayKey("dc2", DefaultPartitionName)}
    ensures keys == [GatewayKey("dc1", DefaultPartitionName), GatewayKey("dc2", DefaultPartitionName)]
  {
    var expected := [GatewayKey("dc1", DefaultPartitionName), GatewayKey("dc2", DefaultPartitionName)];
    assert multiset(expected) == multiset(keys);
    assert Sorted(expected) by {
      assert Less("dc1", "dc2");
    }
    SortedUnique(keys, expected);
  }
}
