/**
 The `isEmpty` test helpers of the four topology blocks. Each inspects a
 fixed subset of the block's fields; a nil receiver, which cannot occur for
 the blocks embedded by value in a snapshot, is not modelled. Each helper
 is stated to hold of its zero block and, when it holds, to imply that the
 block lacks the answers `Valid` looks for.
 */
module EmptyChecks {
  import opened Payloads
  import opened Snapshot

  /** `configSnapshotConnectProxy.isEmpty`. */
  predicate ConnectProxyIsEmpty(c: ConnectProxyState)
    ensures c == ZeroConnectProxy ==> ConnectProxyIsEmpty(c)
    ensures ConnectProxyIsEmpty(c) ==>
              c.upstreams.leaf.None? && !c.intentionsSet && !c.upstreams.meshConfigSet
  {
    var u := c.upstreams;
    && u.leaf.None?
    && !c.intentionsSet
    && |u.discoveryChain| == 0
    && |u.watchedDiscoveryChains| == 0
    && |u.watchedUpstreams| == 0
    && |u.watchedUpstreamEndpoints| == 0
    && |u.watchedPeerTrustBundles| == 0
    && |u.peerTrustBundles| == 0
    && |u.watchedGateways| == 0
    && |u.watchedGatewayEndpoints| == 0
    && |c.watchedServiceChecks| == 0
    && |c.preparedQueryEndpoints| == 0
    && |u.upstreamConfig| == 0
    && |u.passthroughUpstreams| == 0
    && |u.intentionUpstreams| == 0
    && !c.peeringTrustBundlesSet
    && !u.meshConfigSet
    && |u.peerUpstreamEndpoints| == 0
    && |u.peerUpstreamEndpointsUseHostnames| == 0
  }

  /** `configSnapshotTerminatingGateway.isEmpty`. */
  predicate TerminatingGatewayIsEmpty(c: TerminatingGatewayState)
    ensures c == ZeroTerminatingGateway ==> TerminatingGatewayIsEmpty(c)
    ensures TerminatingGatewayIsEmpty(c) ==> !c.meshConfigSet && c.serviceGroups == map[]
  {
    && |c.serviceLeaves| == 0
    && |c.watchedLeaves| == 0
    && |c.watchedIntentions| == 0
    && |c.intentions| == 0
    && |c.serviceGroups| == 0
    && |c.watchedServices| == 0
    && |c.serviceResolvers| == 0
    && |c.serviceResolversSet| == 0
    && |c.watchedResolvers| == 0
    && |c.serviceConfigs| == 0
    && |c.watchedConfigs| == 0
    && |c.gatewayServices| == 0
    && |c.hostnameServices| == 0
    && !c.meshConfigSet
  }

  /** `configSnapshotMeshGateway.isEmptyPeering`. */
  predicate MeshGatewayIsEmptyPeering(c: MeshGatewayState)
    ensures c == ZeroMeshGateway ==> MeshGatewayIsEmptyPeering(c)
    ensures MeshGatewayIsEmptyPeering(c) ==>
              !c.watchedExportedServicesSet && c.exportedServicesWithPeers == map[]
  {
    && |c.exportedServicesSlice| == 0
    && |c.exportedServicesWithPeers| == 0
    && |c.watchedExportedServices| == 0
    && !c.watchedExportedServicesSet
    && |c.discoveryChain| == 0
    && |c.watchedDiscoveryChains| == 0
  }

  /** `configSnapshotMeshGateway.isEmpty`. */
  predicate MeshGatewayIsEmpty(c: MeshGatewayState)
    ensures c == ZeroMeshGateway ==> MeshGatewayIsEmpty(c)
    ensures MeshGatewayIsEmpty(c) ==>
              && !c.watchedServicesSet && c.serviceGroups == map[] && !c.watchedExportedServicesSet
              && c.gatewayGroups == map[] && c.fedStateGateways == map[]
  {
    && |c.watchedServices| == 0
    && !c.watchedServicesSet
    && |c.watchedGateways| == 0
    && |c.serviceGroups| == 0
    && |c.serviceResolvers| == 0
    && |c.gatewayGroups| == 0
    && |c.fedStateGateways| == 0
    && |c.consulServers| == 0
    && |c.hostnameDatacenters| == 0
    && MeshGatewayIsEmptyPeering(c)
  }

  /** `configSnapshotIngressGateway.isEmpty`: only six fields are inspected. */
  predicate IngressGatewayIsEmpty(c: IngressGatewayState)
    ensures c == ZeroIngressGateway ==> IngressGatewayIsEmpty(c)
    ensures IngressGatewayIsEmpty(c) ==> !c.upstreams.meshConfigSet && c.listenerUpstreams == map[]
  {
    && |c.listenerUpstreams| == 0
    && |c.upstreamsSet| == 0
    && |c.upstreams.discoveryChain| == 0
    && |c.upstreams.watchedUpstreams| == 0
    && |c.upstreams.watchedUpstreamEndpoints| == 0
    && !c.upstreams.meshConfigSet
  }

  /** A zero connect-proxy block is empty; any answered intentions make it non-empty. */
  lemma ConnectProxyZeroIsEmpty(c: ConnectProxyState)
    ensures ConnectProxyIsEmpty(ZeroConnectProxy)
    ensures c.intentionsSet ==> !ConnectProxyIsEmpty(c)
  {
  }

  /** A zero terminating-gateway block is empty; a linked service makes it non-empty. */
  lemma TerminatingZeroIsEmpty(c: TerminatingGatewayState)
    ensures TerminatingGatewayIsEmpty(ZeroTerminatingGateway)
    ensures |c.serviceGroups| > 0 ==> !TerminatingGatewayIsEmpty(c)
  {
  }

  /** A zero ingress block is empty, and stays empty with a leaf certificate
      or a loaded gateway config: those fields are not inspected. */
  lemma IngressZeroIsEmpty(leaf: IssuedCert)
    ensures IngressGatewayIsEmpty(ZeroIngressGateway)
    ensures IngressGatewayIsEmpty(ZeroIngressGateway.(
              upstreams := ZeroIngressGateway.upstreams.(leaf := Some(leaf)),
              gatewayConfigLoaded := true, hostsSet := true))
  {
  }

  /** The mesh-gateway check covers every field of the block: empty means zero. */
  lemma MeshGatewayEmptyIsZero(c: MeshGatewayState)
    ensures MeshGatewayIsEmpty(c) <==> c == ZeroMeshGateway
  {
    if MeshGatewayIsEmpty(c) {
      assert c.watchedServices == map[];
      assert c.watchedGateways == map[];
      assert c.serviceGroups == map[];
      assert c.serviceResolvers == map[];
      assert c.gatewayGroups == map[];
      assert c.fedStateGateways == map[];
      assert c.hostnameDatacenters == map[];
      assert c.exportedServicesWithPeers == map[];
      assert c.watchedExportedServices == map[];
      assert c.discoveryChain == map[];
      assert c.watchedDiscoveryChains == map[];
    }
  }
}
